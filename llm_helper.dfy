/**
 * The deterministic parts of `LLMHelper`: cleaning a model reply, turning
 * newsletter HTML into plain text, and the fallbacks used when no API key
 * is configured. The chat-completion call itself is an oracle: a function
 * from a prompt to the reply's content, `None` when the reply has no
 * content or the call raises.
 */
module LlmHelper {
  import opened Wrappers
  import opened Text

  // ---------------------------------------------------------------------
  // Fallback constants

  const FallbackSubjectLine: string := "\U{1F3BE} New Courses Available!"

  const FallbackDescriptions: map<string, string> := map[
    "adults" := "Perfect for players of all levels, our adult courses focus on technique, strategy, and match play.",
    "juniors" := "Fun and engaging courses for young players, using the LTA's colored ball progression system.",
    "events" := "Special sessions and events to enhance your tennis experience and meet other players."
  ]

  /** What `generate_block_description` falls back to for any other block. */
  const DefaultBlockDescription: string := "Join our tennis courses and improve your game!"

  const FallbackLevelDescriptions: map<string, string> := map[
    "Beginner" := "Perfect for those new to tennis or returning after a break.",
    "Improver" := "For players who are confident rallying and ready to level up.",
    "Intermediate" := "For regular players wanting to refine technique and strategy.",
    "Advanced" := "For experienced players focusing on advanced techniques and match play."
  ]

  /** What `generate_level_description` falls back to for any other level. */
  const DefaultLevelDescription: string := "Suitable for all levels."

  const FallbackPreviewText: string := "New courses and fun events this July"

  const FallbackNewsletterSummary: string :=
    "Check out what's coming up this month \U{2014} from new tennis courses to help you improve your game!"

  // ---------------------------------------------------------------------
  // _clean_llm_response

  /** What one line of a reply contributes: its cleaned text, nothing, or
      the `IndexError` that line 59 raises on an empty line. */
  datatype LineResult = Append(text: string) | Skip | Raises

  predicate IsListMarker(c: char) {
    c == '.' || c == ')' || c == '-'
  }

  /** A digit directly followed by `.`, `)` or `-`. */
  predicate NumberedPrefix(line: string) {
    |line| > 1 && IsDigit(line[0]) && IsListMarker(line[1])
  }

  /** The body of the loop over lines, for one line. */
  function CleanLine(raw: string): (r: LineResult)
    ensures r == Raises <==> Strip(raw) == ""
  {
    var line := Strip(raw);
    if line == [] then Raises
    else if !IsDigit(line[0]) || NumberedPrefix(line) then
      var unnumbered := if NumberedPrefix(line) then Strip(line[2..]) else line;
      var undashed := if StartsWith(unnumbered, "- ") then Strip(unnumbered[2..]) else unnumbered;
      if undashed != [] then Append(undashed) else Skip
    else
      Append(line)
  }

  /** The cleaned lines kept from `lines`, or `None` once a line raises. */
  function CleanLines(lines: seq<string>): Option<seq<string>> {
    if lines == [] then Some([])
    else
      match CleanLines(lines[..|lines| - 1])
      case None => None
      case Some(kept) =>
        match CleanLine(lines[|lines| - 1])
        case Raises => None
        case Skip => Some(kept)
        case Append(t) => Some(kept + [t])
  }

  /** One more line: the loop's step. */
  lemma CleanLinesStep(lines: seq<string>, i: nat, kept: seq<string>)
    requires i < |lines| && CleanLines(lines[..i]) == Some(kept)
    ensures CleanLine(lines[i]).Raises? ==> CleanLines(lines[..i + 1]) == None
    ensures CleanLine(lines[i]).Skip? ==> CleanLines(lines[..i + 1]) == Some(kept)
    ensures CleanLine(lines[i]).Append? ==> CleanLines(lines[..i + 1]) == Some(kept + [CleanLine(lines[i]).text])
  {
    assert lines[..i + 1][..i] == lines[..i];
  }

  /** Once a line raises, the whole loop raises. */
  lemma {:induction false} RaisesPropagate(lines: seq<string>, k: nat)
    requires k <= |lines| && CleanLines(lines[..k]) == None
    ensures CleanLines(lines) == None
    decreases |lines| - k
  {
    if k < |lines| {
      assert lines[..k + 1][..k] == lines[..k];
      RaisesPropagate(lines, k + 1);
    } else {
      assert lines[..k] == lines;
    }
  }

  /** One pair of matching surrounding double or single quotes removed. */
  function Unquote(s: string): string {
    if (StartsWith(s, "\"") && EndsWith(s, "\"")) || (StartsWith(s, "'") && EndsWith(s, "'")) then
      if |s| >= 2 then s[1..|s| - 1] else ""
    else s
  }

  /** What `_clean_llm_response` returns, or `None` when it raises. */
  function CleanResponse(response: string): Option<string> {
    if response == [] then Some("")
    else
      match CleanLines(Split(Unquote(Strip(response)), '\n'))
      case None => None
      case Some(kept) => Some(Strip(Join(kept, " ")))
  }

  method CleanLlmResponse(response: string) returns (r: Option<string>)
    ensures r == CleanResponse(response)
  {
    if response == [] {
      return Some("");
    }
    var cleaned := Unquote(Strip(response));
    var lines := Split(cleaned, '\n');
    var cleanedLines: seq<string> := [];
    for i := 0 to |lines|
      invariant CleanLines(lines[..i]) == Some(cleanedLines)
    {
      CleanLinesStep(lines, i, cleanedLines);
      var line := Strip(lines[i]);
      if line == [] {
        RaisesPropagate(lines, i + 1);
        return None;
      }
      if !IsDigit(line[0]) || NumberedPrefix(line) {
        if NumberedPrefix(line) {
          line := Strip(line[2..]);
        }
        if StartsWith(line, "- ") {
          line := Strip(line[2..]);
        }
        if line != [] {
          cleanedLines := cleanedLines + [line];
        }
      } else {
        cleanedLines := cleanedLines + [line];
      }
    }
    assert lines[..|lines|] == lines;
    return Some(Strip(Join(cleanedLines, " ")));
  }

  // ---------------------------------------------------------------------
  // _extract_text_from_html

  /** The position of the first `c` in `s`. */
  function IndexOf(s: string, c: char): (r: Option<nat>)
    ensures r.Some? ==> r.value < |s| && s[r.value] == c && c !in s[..r.value]
    ensures r.None? ==> c !in s
  {
    if s == [] then None
    else if s[0] == c then Some(0)
    else
      match IndexOf(s[1..], c)
      case None => None
      case Some(k) => assert s[..k + 1] == [s[0]] + s[1..][..k]; Some(k + 1)
  }

  /** `re.sub(r'<[^>]+>', '', s)`: scanning from the left, a `<` whose next
      `>` is at least two characters on is removed together with it and
      everything between. */
  function StripTags(s: string): string
    decreases |s|
  {
    if s == [] then []
    else if s[0] == '<' && IndexOf(s[1..], '>').Some? && IndexOf(s[1..], '>').value >= 1 then
      StripTags(s[IndexOf(s[1..], '>').value + 2..])
    else
      [s[0]] + StripTags(s[1..])
  }

  /** No substring matches `<[^>]+>`: every `<` is directly followed by `>`
      or has no `>` anywhere after it. */
  predicate NoTag(s: string) {
    forall i :: 0 <= i < |s| && s[i] == '<' ==> (i + 1 < |s| && s[i + 1] == '>') || '>' !in s[i + 1..]
  }

  /** `re.sub(r'\s+', ' ', s)`: every run of whitespace becomes one space. */
  function Collapse(s: string): string
    decreases |s|
  {
    if s == [] then []
    else if IsSpace(s[0]) then [' '] + Collapse(TrimLeft(s[1..]))
    else [s[0]] + Collapse(s[1..])
  }

  /** Whitespace occurs only as single spaces. */
  predicate SingleSpaced(s: string) {
    (forall i :: 0 <= i < |s| && IsSpace(s[i]) ==> s[i] == ' ')
    && (forall i :: 0 <= i < |s| - 1 ==> !(IsSpace(s[i]) && IsSpace(s[i + 1])))
  }

  /** `_extract_text_from_html`: the text is trimmed and whitespace in it
      occurs only as single spaces. */
  function ExtractText(html: string): (r: string)
    ensures html == [] ==> r == ""
    ensures IsStripped(r) && SingleSpaced(r)
  {
    if html == [] then ""
    else
      CollapseSingleSpaced(StripTags(html));
      StripSingleSpaced(Collapse(StripTags(html)));
      Strip(Collapse(StripTags(html)))
  }

  // ---------------------------------------------------------------------
  // _make_llm_call and the generators

  /** What each generator asks the model about; the wording is left out. */
  datatype Prompt =
    | SubjectPrompt(text: string)
    | PreviewPrompt(text: string)
    | BlockPrompt(contentType: string)
    | LevelPrompt(level: string)
    | EventPrompt(description: string, title: string)
    | SummaryPrompt(text: string)

  /** An `LLMHelper`: whether an API key (and so a client) is set, and the
      content the model returns for a prompt. */
  datatype Helper = Helper(hasKey: bool, reply: Prompt -> Option<string>)

  /** `_make_llm_call`: the cleaned reply, or "" without a key, without
      content or when cleaning raises. Whatever it gives is trimmed and on
      one line. */
  function MakeLlmCall(h: Helper, p: Prompt): (r: string)
    ensures IsStripped(r) && '\n' !in r
    ensures !h.hasKey || h.reply(p) == None ==> r == ""
    ensures h.hasKey && h.reply(p).Some? ==>
              r == match CleanResponse(h.reply(p).value) case None => "" case Some(t) => t
  {
    if !h.hasKey then ""
    else
      match h.reply(p)
      case None => ""
      case Some(content) =>
        match CleanResponse(content)
        case None => ""
        case Some(t) => CleanResponseShape(content); t
  }

  /** `generate_subject_line`: the fixed fallback without a key; otherwise
      the model's answer about the newsletter's text. */
  function GenerateSubjectLine(h: Helper, html: string): (r: string)
    ensures !h.hasKey ==> r == FallbackSubjectLine
    ensures h.hasKey ==> r == MakeLlmCall(h, SubjectPrompt(ExtractText(html)))
    ensures IsStripped(r) && '\n' !in r
  {
    if !h.hasKey then FallbackSubjectLine else MakeLlmCall(h, SubjectPrompt(ExtractText(html)))
  }

  /** `generate_preview_text`, in the same way. */
  function GeneratePreviewText(h: Helper, html: string): (r: string)
    ensures !h.hasKey ==> r == FallbackPreviewText
    ensures h.hasKey ==> r == MakeLlmCall(h, PreviewPrompt(ExtractText(html)))
    ensures IsStripped(r) && '\n' !in r
  {
    if !h.hasKey then FallbackPreviewText else MakeLlmCall(h, PreviewPrompt(ExtractText(html)))
  }

  /** `generate_block_description`: without a key the block's fallback, or
      the default for a block without one, never empty. */
  function GenerateBlockDescription(h: Helper, contentType: string): (r: string)
    ensures !h.hasKey && contentType in FallbackDescriptions ==> r == FallbackDescriptions[contentType]
    ensures !h.hasKey && contentType !in FallbackDescriptions ==> r == DefaultBlockDescription
    ensures !h.hasKey ==> r != ""
    ensures h.hasKey ==> r == MakeLlmCall(h, BlockPrompt(contentType))
    ensures h.hasKey ==> IsStripped(r) && '\n' !in r
  {
    if !h.hasKey then
      if contentType in FallbackDescriptions then FallbackDescriptions[contentType] else DefaultBlockDescription
    else MakeLlmCall(h, BlockPrompt(contentType))
  }

  /** `generate_level_description`, in the same way for a skill level. */
  function GenerateLevelDescription(h: Helper, level: string): (r: string)
    ensures !h.hasKey && level in FallbackLevelDescriptions ==> r == FallbackLevelDescriptions[level]
    ensures !h.hasKey && level !in FallbackLevelDescriptions ==> r == DefaultLevelDescription
    ensures !h.hasKey ==> r != ""
    ensures h.hasKey ==> r == MakeLlmCall(h, LevelPrompt(level))
    ensures h.hasKey ==> IsStripped(r) && '\n' !in r
  {
    if !h.hasKey then
      if level in FallbackLevelDescriptions then FallbackLevelDescriptions[level] else DefaultLevelDescription
    else MakeLlmCall(h, LevelPrompt(level))
  }

  /** `generate_event_description`; without a key it calls `.get` on a
      string and raises `AttributeError`, shown as `None`. */
  function GenerateEventDescription(h: Helper, description: string, title: string): (r: Option<string>)
    ensures r.None? <==> !h.hasKey
    ensures r.Some? ==> r.value == MakeLlmCall(h, EventPrompt(description, title))
    ensures r.Some? ==> IsStripped(r.value) && '\n' !in r.value
  {
    if !h.hasKey then None else Some(MakeLlmCall(h, EventPrompt(description, title)))
  }

  /** `generate_newsletter_summary`; with a key and no HTML the prompt is
      never bound and the call raises `UnboundLocalError`, shown as `None`. */
  function GenerateNewsletterSummary(h: Helper, html: string): (r: Option<string>)
    ensures !h.hasKey ==> r == Some(FallbackNewsletterSummary)
    ensures r.None? <==> h.hasKey && html == []
    ensures h.hasKey && r.Some? ==> r.value == MakeLlmCall(h, SummaryPrompt(ExtractText(html)))
    ensures h.hasKey && r.Some? ==> IsStripped(r.value) && '\n' !in r.value
  {
    if !h.hasKey then Some(FallbackNewsletterSummary)
    else if html == [] then None
    else Some(MakeLlmCall(h, SummaryPrompt(ExtractText(html))))
  }

  // ---------------------------------------------------------------------
  // Properties of cleaning

  /** A line that is empty once stripped. */
  predicate Blank(line: string) {
    Strip(line) == ""
  }

  predicate HasBlank(lines: seq<string>) {
    exists k :: 0 <= k < |lines| && Blank(lines[k])
  }

  lemma HasBlankSnoc(lines: seq<string>)
    requires lines != []
    ensures HasBlank(lines) <==> HasBlank(lines[..|lines| - 1]) || Blank(lines[|lines| - 1])
  {
    var init := lines[..|lines| - 1];
    if HasBlank(init) {
      var k :| 0 <= k < |init| && Blank(init[k]);
      assert lines[k] == init[k];
    }
    if HasBlank(lines) {
      var k :| 0 <= k < |lines| && Blank(lines[k]);
      if k < |init| {
        assert init[k] == lines[k];
      }
    }
  }

  lemma CleanLinesSnoc(lines: seq<string>)
    requires lines != []
    ensures CleanLines(lines) == None <==>
              CleanLines(lines[..|lines| - 1]) == None || CleanLine(lines[|lines| - 1]) == Raises
  {
  }

  /** The loop raises exactly when some line is blank once stripped. */
  lemma {:induction false} CleanLinesRaises(lines: seq<string>)
    ensures CleanLines(lines) == None <==> HasBlank(lines)
  {
    if lines != [] {
      CleanLinesRaises(lines[..|lines| - 1]);
      CleanLinesSnoc(lines);
      HasBlankSnoc(lines);
    }
  }

  /** Cleaning raises exactly when the reply is non-empty and one of its
      lines, after the outer strip and unquoting, is blank. */
  lemma CleanResponseRaises(response: string)
    ensures CleanResponse(response) == None <==>
              response != [] && HasBlank(Split(Unquote(Strip(response)), '\n'))
  {
    if response != [] {
      var lines := Split(Unquote(Strip(response)), '\n');
      CleanLinesRaises(lines);
      assert CleanResponse(response) == None <==> CleanLines(lines) == None;
    }
  }

  /** A reply made only of whitespace raises: it strips to "", which
      splits into one empty line. */
  lemma BlankReplyRaises(response: string)
    requires response != [] && forall i :: 0 <= i < |response| ==> IsSpace(response[i])
    ensures CleanResponse(response) == None
  {
    var t := Strip(response);
    var i, j := StripSlice(response);
    assert Split(Unquote(t), '\n') == [""];
    CleanResponseRaises(response);
    assert Blank("");
  }

  /** A line whose text is plain (non-empty, trimmed, not starting with a
      digit or "- "). */
  predicate PlainLine(t: string) {
    t != [] && IsStripped(t) && '\n' !in t && !IsDigit(t[0]) && !StartsWith(t, "- ")
  }

  predicate Quoted(t: string) {
    (StartsWith(t, "\"") && EndsWith(t, "\"")) || (StartsWith(t, "'") && EndsWith(t, "'"))
  }

  /** Each kind of line, as the loop treats it. */
  lemma CleanLineCases(t: string, d: char, m: char)
    requires PlainLine(t) && IsDigit(d) && IsListMarker(m)
    ensures CleanLine(t) == Append(t)
    ensures CleanLine([d, m, ' '] + t) == Append(t)
    ensures CleanLine("- " + t) == Append(t)
    ensures CleanLine([d, m] + "- " + t) == Append(t)
  {
    CleanPlain(t);
    CleanNumbered(t, d, m);
    CleanDashed(t);
    CleanNumberedDashed(t, d, m);
  }

  lemma CleanPlain(t: string)
    requires PlainLine(t)
    ensures CleanLine(t) == Append(t)
  {
    StripStripped(t);
    assert !NumberedPrefix(t);
  }

  lemma CleanNumbered(t: string, d: char, m: char)
    requires PlainLine(t) && IsDigit(d) && IsListMarker(m)
    ensures CleanLine([d, m, ' '] + t) == Append(t)
  {
    var a := [d, m, ' '] + t;
    assert IsStripped(a) by { assert a[|a| - 1] == t[|t| - 1]; }
    StripStripped(a);
    assert NumberedPrefix(a);
    assert a[2..] == " " + t;
    StripLeadingSpace(t);
    assert !StartsWith(t, "- ");
  }

  lemma CleanDashed(t: string)
    requires PlainLine(t)
    ensures CleanLine("- " + t) == Append(t)
  {
    var b := "- " + t;
    assert IsStripped(b) by { assert b[|b| - 1] == t[|t| - 1]; }
    StripStripped(b);
    StripStripped(t);
    assert !NumberedPrefix(b);
    assert StartsWith(b, "- ") && b[2..] == t;
  }

  lemma CleanNumberedDashed(t: string, d: char, m: char)
    requires PlainLine(t) && IsDigit(d) && IsListMarker(m)
    ensures CleanLine([d, m] + "- " + t) == Append(t)
  {
    var c := [d, m] + "- " + t;
    var b := "- " + t;
    assert IsStripped(c) by { assert c[|c| - 1] == t[|t| - 1]; }
    StripStripped(c);
    assert NumberedPrefix(c);
    assert c[2..] == b;
    assert IsStripped(b) by { assert b[|b| - 1] == t[|t| - 1]; }
    StripStripped(b);
    StripStripped(t);
    assert StartsWith(b, "- ") && b[2..] == t;
  }

  lemma StripLeadingSpace(t: string)
    requires t != [] && IsStripped(t)
    ensures Strip(" " + t) == t
  {
    var s := " " + t;
    assert TrimLeft(s) == TrimLeft(s[1..]);
    assert s[1..] == t;
    assert TrimLeft(t) == t;
    assert TrimRight(t) == t;
  }

  /** A line beginning with a digit but no list marker is kept whole. */
  lemma DigitLineKept(t: string)
    requires t != [] && IsStripped(t) && IsDigit(t[0]) && !NumberedPrefix(t)
    ensures CleanLine(t) == Append(t)
  {
    StripStripped(t);
  }

  /** A plain one-line reply comes back unchanged, with or without one pair
      of surrounding quotes. */
  lemma PlainReplyRoundTrip(t: string)
    requires PlainLine(t) && !Quoted(t)
    ensures CleanResponse(t) == Some(t)
    ensures CleanResponse("\"" + t + "\"") == Some(t)
    ensures CleanResponse("'" + t + "'") == Some(t)
  {
    StripStripped(t);
    CleanSingleLine(t, t);
    Enclosed(t, '"');
    CleanSingleLine("\"" + t + "\"", t);
    Enclosed(t, '\'');
    CleanSingleLine("'" + t + "'", t);
  }

  /** `t` between two quote characters: already stripped, and unquoting
      gives `t` back. */
  lemma Enclosed(t: string, q: char)
    requires q == '"' || q == '\''
    ensures Strip([q] + t + [q]) == [q] + t + [q]
    ensures Unquote([q] + t + [q]) == t
  {
    var s := [q] + t + [q];
    StripStripped(s);
    assert s[1..|s| - 1] == t;
    assert StartsWith(s, [q]) && EndsWith(s, [q]);
    assert "\"" == ['"'] && "'" == ['\''];
  }

  /** A reply that strips and unquotes to one plain line gives that line. */
  lemma CleanSingleLine(response: string, body: string)
    requires response != [] && Unquote(Strip(response)) == body && PlainLine(body)
    ensures CleanResponse(response) == Some(body)
  {
    SplitNoSep(body, '\n');
    CleanPlain(body);
    CleanLinesOfTwo([], body, Append(body));
    assert [body][..0] == [];
    assert CleanLines([body]) == Some([body]);
    assert Join([body], " ") == body;
    StripStripped(body);
  }

  /** The loop over a prefix whose lines were all kept, plus one line. */
  lemma CleanLinesOfTwo(init: seq<string>, last: string, r: LineResult)
    requires CleanLines(init).Some? && CleanLine(last) == r && r.Append?
    ensures CleanLines(init + [last]) == Some(CleanLines(init).value + [r.text])
  {
    assert (init + [last])[..|init|] == init;
  }

  /** A two-item numbered list becomes its items joined by one space. */
  lemma NumberedListReply(reply: string, a: string, b: string)
    requires PlainLine(a) && PlainLine(b) && reply == "1. " + a + "\n" + "2) " + b
    ensures CleanResponse(reply) == Some(a + " " + b)
  {
    var x := "1. " + a;
    var y := "2) " + b;
    assert reply == x + "\n" + y;
    TwoLines(x, y, a, b);
    NumberedLinesKept(x, y, a, b);
    JoinTwo(a, b);
    CleanResponseOf(x + "\n" + y, [x, y], [a, b]);
  }

  lemma CleanResponseOf(response: string, lines: seq<string>, kept: seq<string>)
    requires response != [] && Split(Unquote(Strip(response)), '\n') == lines
    requires CleanLines(lines) == Some(kept)
    ensures CleanResponse(response) == Some(Strip(Join(kept, " ")))
  {
  }

  lemma NumberedLinesKept(x: string, y: string, a: string, b: string)
    requires PlainLine(a) && PlainLine(b)
    requires x == "1. " + a && y == "2) " + b
    ensures CleanLines([x, y]) == Some([a, b])
  {
    CleanNumbered(a, '1', '.');
    CleanNumbered(b, '2', ')');
    assert x == ['1', '.', ' '] + a && y == ['2', ')', ' '] + b;
    CleanLinesOfTwo([], x, Append(a));
    assert [] + [x] == [x] && [] + [a] == [a];
    CleanLinesOfTwo([x], y, Append(b));
    assert [x] + [y] == [x, y] && [a] + [b] == [a, b];
  }

  /** The numbered reply is already stripped and unquoted, and splits into
      its two lines. */
  lemma TwoLines(x: string, y: string, a: string, b: string)
    requires PlainLine(a) && PlainLine(b)
    requires x == "1. " + a && y == "2) " + b
    ensures Unquote(Strip(x + "\n" + y)) == x + "\n" + y
    ensures Split(x + "\n" + y, '\n') == [x, y]
  {
    var r := x + "\n" + y;
    assert r[0] == '1' && r[|r| - 1] == b[|b| - 1];
    StripStripped(r);
    assert !StartsWith(r, "\"") && !StartsWith(r, "'");
    assert '\n' !in x && '\n' !in y;
    SplitPrefix(x, y, '\n');
    SplitNoSep(y, '\n');
  }

  lemma JoinTwo(a: string, b: string)
    requires PlainLine(a) && PlainLine(b)
    ensures Strip(Join([a, b], " ")) == a + " " + b
  {
    assert [a, b][1..] == [b];
    assert Join([a, b], " ") == a + " " + b;
    var j := a + " " + b;
    assert j[|j| - 1] == b[|b| - 1];
    StripStripped(j);
  }

  /** Whatever cleaning returns is trimmed and on one line. */
  lemma {:induction false} CleanLinesShape(lines: seq<string>)
    requires forall k :: 0 <= k < |lines| ==> '\n' !in lines[k]
    ensures CleanLines(lines).Some? ==>
              forall k :: 0 <= k < |CleanLines(lines).value| ==> '\n' !in CleanLines(lines).value[k]
  {
    if lines != [] {
      CleanLinesShape(lines[..|lines| - 1]);
      CleanLineFree(lines[|lines| - 1]);
    }
  }

  /** Cleaning one line adds no newline. */
  lemma CleanLineFree(raw: string)
    requires '\n' !in raw
    ensures CleanLine(raw).Append? ==> '\n' !in CleanLine(raw).text
  {
    StripFree(raw, '\n');
    var line := Strip(raw);
    if |line| >= 2 {
      StripFree(line[2..], '\n');
      var u := if NumberedPrefix(line) then Strip(line[2..]) else line;
      if |u| >= 2 {
        StripFree(u[2..], '\n');
      }
    }
  }

  lemma StripFree(s: string, c: char)
    requires c !in s
    ensures c !in Strip(s)
  {
    var i, j := StripSlice(s);
  }

  lemma {:induction false} JoinFree(parts: seq<string>, sep: string, c: char)
    requires c !in sep && forall k :: 0 <= k < |parts| ==> c !in parts[k]
    ensures c !in Join(parts, sep)
  {
    if |parts| > 1 {
      JoinFree(parts[1..], sep, c);
    }
  }

  lemma CleanResponseShape(response: string)
    requires CleanResponse(response).Some?
    ensures IsStripped(CleanResponse(response).value)
    ensures '\n' !in CleanResponse(response).value
  {
    if response != [] {
      var lines := Split(Unquote(Strip(response)), '\n');
      CleanLinesShape(lines);
      var kept := CleanLines(lines).value;
      JoinFree(kept, " ", '\n');
    }
  }

  // ---------------------------------------------------------------------
  // Properties of the model call and the generators

  /** Without a key every generator gives its fixed fallback, and the two
      that raise do so. */
  lemma NoKeyFallbacks(h: Helper, html: string, contentType: string, level: string, description: string, title: string)
    requires !h.hasKey
    ensures forall p :: MakeLlmCall(h, p) == ""
    ensures GenerateSubjectLine(h, html) == FallbackSubjectLine
    ensures GeneratePreviewText(h, html) == FallbackPreviewText
    ensures GenerateNewsletterSummary(h, html) == Some(FallbackNewsletterSummary)
    ensures GenerateEventDescription(h, description, title) == None
    ensures GenerateBlockDescription(h, contentType) ==
              if contentType in {"adults", "juniors", "events"} then FallbackDescriptions[contentType]
              else DefaultBlockDescription
    ensures GenerateLevelDescription(h, level) ==
              if level in {"Beginner", "Improver", "Intermediate", "Advanced"} then FallbackLevelDescriptions[level]
              else DefaultLevelDescription
  {
  }

  // ---------------------------------------------------------------------
  // Properties of text extraction

  lemma {:induction false} StripTagsFrom(t: string, c: char)
    requires c !in t
    ensures c !in StripTags(t)
    decreases |t|
  {
    if t != [] {
      if t[0] == '<' && IndexOf(t[1..], '>').Some? && IndexOf(t[1..], '>').value >= 1 {
        StripTagsFrom(t[IndexOf(t[1..], '>').value + 2..], c);
      } else {
        StripTagsFrom(t[1..], c);
      }
    }
  }

  /** No tag survives: the output has no match of `<[^>]+>` left. */
  lemma {:induction false} StripTagsNoTag(s: string)
    ensures NoTag(StripTags(s))
    decreases |s|
  {
    if s != [] {
      var k := IndexOf(s[1..], '>');
      if s[0] == '<' && k.Some? && k.value >= 1 {
        StripTagsNoTag(s[k.value + 2..]);
      } else {
        var rest := StripTags(s[1..]);
        StripTagsNoTag(s[1..]);
        var r := [s[0]] + rest;
        forall i | 0 <= i < |r| && r[i] == '<'
          ensures (i + 1 < |r| && r[i + 1] == '>') || '>' !in r[i + 1..]
        {
          if i == 0 {
            if k.None? {
              StripTagsFrom(s[1..], '>');
              assert r[1..] == rest;
            } else {
              assert s[1] == '>';
              assert rest == ['>'] + StripTags(s[2..]) by { assert s[1..][1..] == s[2..]; }
            }
          } else {
            assert r[i] == rest[i - 1];
            assert r[i + 1..] == rest[i..];
          }
        }
      }
    }
  }

  /** Text without tags passes through unchanged. */
  lemma {:induction false} StripTagsKeeps(s: string)
    requires NoTag(s)
    ensures StripTags(s) == s
    decreases |s|
  {
    if s != [] {
      var t := s[1..];
      forall i | 0 <= i < |t| && t[i] == '<'
        ensures (i + 1 < |t| && t[i + 1] == '>') || '>' !in t[i + 1..]
      {
        assert s[i + 1] == '<';
        assert s[i + 2..] == t[i + 1..];
      }
      StripTagsKeeps(t);
      if s[0] == '<' {
        var k := IndexOf(t, '>');
        if k.Some? {
          assert '>' in s[1..];
          assert s[1] == '>';
        }
      }
    }
  }

  /** Tag stripping is idempotent, and its fixed points are exactly the
      strings without tags. */
  lemma StripTagsFixpoint(s: string)
    ensures StripTags(StripTags(s)) == StripTags(s)
    ensures StripTags(s) == s <==> NoTag(s)
  {
    StripTagsNoTag(s);
    StripTagsKeeps(StripTags(s));
    if NoTag(s) {
      StripTagsKeeps(s);
    }
  }

  lemma CollapseHead(t: string)
    requires t != []
    ensures Collapse(t) != []
    ensures Collapse(t)[0] == if IsSpace(t[0]) then ' ' else t[0]
  {
  }

  /** After collapsing, whitespace occurs only as single spaces. */
  lemma {:induction false} CollapseSingleSpaced(s: string)
    ensures SingleSpaced(Collapse(s))
    decreases |s|
  {
    if s != [] {
      var t := if IsSpace(s[0]) then TrimLeft(s[1..]) else s[1..];
      CollapseSingleSpaced(t);
      var c := Collapse(t);
      var r := [if IsSpace(s[0]) then ' ' else s[0]] + c;
      assert Collapse(s) == r;
      if c != [] {
        CollapseHead(t);
      }
      forall i | 0 <= i < |r| && IsSpace(r[i])
        ensures r[i] == ' '
      {
        if i > 0 {
          assert r[i] == c[i - 1];
        }
      }
      forall i | 0 <= i < |r| - 1
        ensures !(IsSpace(r[i]) && IsSpace(r[i + 1]))
      {
        if i > 0 {
          assert r[i] == c[i - 1] && r[i + 1] == c[i];
        }
      }
    }
  }

  /** Single-spaced text passes through unchanged. */
  lemma {:induction false} CollapseKeeps(s: string)
    requires SingleSpaced(s)
    ensures Collapse(s) == s
    decreases |s|
  {
    if s != [] {
      var t := s[1..];
      assert forall i :: 0 <= i < |t| ==> t[i] == s[i + 1];
      CollapseKeeps(t);
      if IsSpace(s[0]) {
        assert TrimLeft(t) == t;
      }
    }
  }

  /** Collapsing is idempotent, and its fixed points are exactly the
      single-spaced strings. */
  lemma CollapseFixpoint(s: string)
    ensures Collapse(Collapse(s)) == Collapse(s)
    ensures Collapse(s) == s <==> SingleSpaced(s)
  {
    CollapseSingleSpaced(s);
    CollapseKeeps(Collapse(s));
    if SingleSpaced(s) {
      CollapseKeeps(s);
    }
  }

  /** Trimming keeps a single-spaced text single-spaced. */
  lemma StripSingleSpaced(c: string)
    requires SingleSpaced(c)
    ensures SingleSpaced(Strip(c))
  {
    var r := Strip(c);
    var i, j := StripSlice(c);
    assert forall k :: 0 <= k < |r| ==> r[k] == c[i + k];
  }

  /** "<>" and an unclosed `<` are not tags; a closed one is removed. */
  lemma StripTagsExamples()
    ensures StripTags("<>") == "<>"
    ensures StripTags("a<b") == "a<b"
    ensures StripTags("<p>Hi</p>") == "Hi"
  {
    EmptyTagKept();
    UnclosedKept();
    ParagraphStripped();
  }

  lemma EmptyTagKept()
    ensures StripTags("<>") == "<>"
  {
    assert IndexOf(">", '>') == Some(0);
    assert "<>"[1..] == ">";
    assert StripTags(">") == ">";
  }

  lemma UnclosedKept()
    ensures StripTags("a<b") == "a<b"
  {
    assert IndexOf("b", '>') == None;
    assert "a<b"[1..] == "<b" && "<b"[1..] == "b";
    assert StripTags("b") == "b";
  }

  lemma ParagraphStripped()
    ensures StripTags("<p>Hi</p>") == "Hi"
  {
    var s := "<p>Hi</p>";
    assert IndexOf(s[1..], '>') == Some(1);
    assert s[3..] == "Hi</p>";
    TextThenClose("Hi</p>");
  }

  lemma TextThenClose(u: string)
    requires u == "Hi</p>"
    ensures StripTags(u) == "Hi"
  {
    var t := "</p>";
    CloseStripped(t);
    assert u[1..][1..] == t;
    assert StripTags(u[1..]) == ['i'] + StripTags(t);
  }

  lemma CloseStripped(t: string)
    requires t == "</p>"
    ensures StripTags(t) == ""
  {
    assert IndexOf(t[1..], '>') == Some(2);
    assert t[4..] == "";
  }
}
