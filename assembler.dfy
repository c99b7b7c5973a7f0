/** The document assembler: a day record and its 1-based day number become
    the day's README in Markdown (`make_badge`, `make_section` and
    `build_readme` of generate_readmes.py). */
module Assembler {
  import opened Base
  import opened Text

  /** One entry of a day's study list: `{"name": ..., "url": ...}`. */
  datatype Link = Link(name: string, url: string)

  /** A day record. `title` and `focus` are read with `data[key]` and raise
      KeyError when absent; the other scalar fields are read with
      `data.get(key, default)`; an absent list reads as the empty list. */
  datatype DayRecord = DayRecord(
    title: Option<string>,
    area: Option<string>,
    focus: Option<string>,
    timebox: Option<string>,
    study: seq<Link>,
    build: seq<string>,
    assignments: seq<string>,
    dod: seq<string>,
    commitMsg: Option<string>,
    outcome: seq<string>,
    reviewQuestions: seq<string>)

  const BadgeBase := "https://img.shields.io/badge/"
  const DefaultArea := "misc"
  const DefaultTimebox := "~3 hours"

  /** Item markers of the list sections. Every build step gets the literal
      `1.`; Markdown renderers number the list themselves. */
  const StepMarker := "1. "
  const BulletMarker := "- "
  const TaskMarker := "- [ ] "

  /** The nine section headings, in the order the README lists them. The
      last one is written with U+2011 NON-BREAKING HYPHEN. */
  const Headings: seq<string> := [
    FocusHeading, TimeboxHeading, StudyHeading, BuildHeading, AssignmentsHeading,
    DodHeading, CommitHeading, OutcomeHeading, ReviewHeading]

  const FocusHeading := "Focus"
  const TimeboxHeading := "Timebox"
  const StudyHeading := "Study"
  const BuildHeading := "Build"
  const AssignmentsHeading := "Assignments"
  const DodHeading := "DoD Checklist"
  const CommitHeading := "Commit Message"
  const OutcomeHeading := "Outcome Artifacts"
  const ReviewHeading := "Self\U{2011}Review Questions"

  // ---- make_badge ------------------------------------------------------------

  /** A shields.io badge image link; spaces in label and message become `%20`. */
  function MakeBadge(labelText: string, message: string, color: string): string {
    var l := EscapeSpaces(labelText);
    var m := EscapeSpaces(message);
    "![" + l + ("](" + BadgeBase + l + "-" + m + "-" + color + ")")
  }

  /** The longest prefix of `s` without `c`. */
  function TakeUntil(s: string, c: char): (r: string)
    ensures |r| <= |s| && r == s[..|r|] && c !in r
  {
    if s == [] || s[0] == c then [] else [s[0]] + TakeUntil(s[1..], c)
  }

  lemma {:induction false} TakeUntilStops(a: string, b: string, c: char)
    requires c !in a
    requires b != [] && b[0] == c
    ensures TakeUntil(a + b, c) == a
  {
    if a != [] {
      assert (a + b)[1..] == a[1..] + b;
      TakeUntilStops(a[1..], b, c);
    }
  }

  predicate StartsWith(s: string, p: string) {
    |p| <= |s| && s[..|p|] == p
  }

  /** Reads a badge back: the alt text up to the first `]`, the same label
      again in the URL, the message up to the next `-` and the colour up to
      the closing parenthesis; label and message have `%20` decoded. */
  function ParseBadge(b: string): Option<(string, string, string)> {
    if !StartsWith(b, "![") then None
    else
      var l := TakeUntil(b[2..], ']');
      ParseBadgeUrl(l, b[2 + |l|..])
  }

  /** The part of a badge after its alt text `l`. */
  function ParseBadgeUrl(l: string, rest: string): Option<(string, string, string)> {
    var head := "](" + BadgeBase + l + "-";
    if !StartsWith(rest, head) then None
    else
      var tail := rest[|head|..];
      var m := TakeUntil(tail, '-');
      var ending := tail[|m|..];
      if |ending| < 2 || ending[0] != '-' || ending[|ending| - 1] != ')' then None
      else Some((UnescapeSpaces(l), UnescapeSpaces(m), ending[1..|ending| - 1]))
  }

  /** A badge determines its label, message and colour, as long as the label
      has no `]` and the message no `-` (those end the fields) and neither
      contains `%` (which would make `%20` ambiguous). */
  lemma BadgeRoundTrip(labelText: string, message: string, color: string)
    requires '%' !in labelText && ']' !in labelText
    requires '%' !in message && '-' !in message
    ensures ParseBadge(MakeBadge(labelText, message, color)) == Some((labelText, message, color))
  {
    var l := EscapeSpaces(labelText);
    var m := EscapeSpaces(message);
    EscapeKeepsOut(labelText, ']');
    EscapeKeepsOut(message, '-');
    var rest := "](" + BadgeBase + l + "-" + m + "-" + color + ")";
    assert MakeBadge(labelText, message, color) == "![" + l + rest;
    ParseBadgeAlt(l, rest);
    BadgeUrlRoundTrip(l, m, color);
    UnescapeEscape(labelText);
    UnescapeEscape(message);
  }

  /** Whatever the text, a message read back from a badge has no `-`, since
      the first `-` after the label ends it. */
  lemma ParseBadgeMessage(b: string)
    ensures ParseBadge(b).Some? ==> '-' !in ParseBadge(b).value.1
  {
    if StartsWith(b, "![") {
      var l := TakeUntil(b[2..], ']');
      var rest := b[2 + |l|..];
      var head := "](" + BadgeBase + l + "-";
      if StartsWith(rest, head) {
        var m := TakeUntil(rest[|head|..], '-');
        UnescapeKeepsOut(m, '-');
      }
    }
  }

  /** The converse of `BadgeRoundTrip`'s second condition: a message with a
      `-` (an area such as `system-design`) never reads back from its badge,
      because the URL has nothing to tell its `-` from the one before the
      colour. */
  lemma BadgeDashLost(labelText: string, message: string, color: string)
    requires '-' in message
    ensures ParseBadge(MakeBadge(labelText, message, color)) != Some((labelText, message, color))
  {
    ParseBadgeMessage(MakeBadge(labelText, message, color));
  }

  /** The alt text of a badge ends at the `]` that opens the rest. */
  lemma ParseBadgeAlt(l: string, rest: string)
    requires ']' !in l && rest != [] && rest[0] == ']'
    ensures ParseBadge("![" + l + rest) == ParseBadgeUrl(l, rest)
  {
    var b := "![" + l + rest;
    assert StartsWith(b, "![");
    assert b[2..] == l + rest;
    TakeUntilStops(l, rest, ']');
    assert b[2 + |l|..] == rest;
  }

  lemma EscapeKeepsOut(s: string, c: char)
    requires c !in s && c != '%' && c != '2' && c != '0'
    ensures c !in EscapeSpaces(s)
  {
    var r := EscapeSpaces(s);
    EscapeSpacesSpec(s);
    forall k | 0 <= k < |r| ensures r[k] != c {
      assert r[k] in s || r[k] in "%20";
    }
  }

  lemma BadgeUrlRoundTrip(l: string, m: string, color: string)
    requires '-' !in m
    ensures ParseBadgeUrl(l, "](" + BadgeBase + l + "-" + m + "-" + color + ")")
         == Some((UnescapeSpaces(l), UnescapeSpaces(m), color))
  {
    var head := "](" + BadgeBase + l + "-";
    var ending := "-" + color + ")";
    var rest := head + (m + ending);
    assert rest == "](" + BadgeBase + l + "-" + m + "-" + color + ")";
    assert StartsWith(rest, head);
    assert rest[|head|..] == m + ending;
    TakeUntilStops(m, ending, '-');
    assert (m + ending)[|m|..] == ending;
    assert ending[1..|ending| - 1] == color;
  }

  // ---- make_section ----------------------------------------------------------

  /** A level-3 heading, a blank line, the stripped content and a newline. */
  function MakeSection(title: string, content: string): string {
    "### " + title + "\n\n" + Strip(content) + "\n"
  }

  /** Reads a section back into its heading and its body. */
  function ParseSection(s: string): Option<(string, string)> {
    if |s| < 4 || s[..4] != "### " then None
    else
      var t := TakeUntil(s[4..], '\n');
      var rest := s[4 + |t|..];
      if |rest| < 3 || rest[..2] != "\n\n" || rest[|rest| - 1] != '\n' then None
      else Some((t, rest[2..|rest| - 1]))
  }

  /** A section gives back its heading and the stripped content, provided
      the heading is a single line. */
  lemma SectionRoundTrip(title: string, content: string)
    requires '\n' !in title
    ensures ParseSection(MakeSection(title, content)) == Some((title, Strip(content)))
  {
    var body := Strip(content);
    var rest := "\n\n" + body + "\n";
    var s := "### " + (title + rest);
    assert MakeSection(title, content) == s;
    assert s[..4] == "### ";
    assert s[4..] == title + rest;
    assert rest[0] == '\n';
    TakeUntilStops(title, rest, '\n');
    assert s[4 + |title|..] == rest;
    assert rest[..2] == "\n\n";
    assert rest[2..|rest| - 1] == body;
  }

  /** Content without surrounding whitespace goes into the section verbatim;
      empty content leaves two blank lines under the heading. */
  lemma SectionOfTrimmed(title: string, content: string)
    requires Trimmed(content)
    ensures MakeSection(title, content) == "### " + title + "\n\n" + content + "\n"
    ensures content == [] ==> MakeSection(title, content) == "### " + title + "\n\n\n"
  {
    TrimmedStrip(content);
  }

  /** Surrounding whitespace of the content makes no difference to a section. */
  lemma SectionIgnoresPadding(title: string, content: string)
    ensures MakeSection(title, Strip(content)) == MakeSection(title, content)
  {
    StripIdempotent(content);
  }

  // ---- list bodies -------------------------------------------------------------

  /** `- [name](url)` */
  function StudyLine(link: Link): string {
    "- [" + link.name + "](" + link.url + ")"
  }

  /** The study list, one line per link, in input order. */
  function StudyLines(links: seq<Link>): seq<string> {
    seq(|links|, k requires 0 <= k < |links| => StudyLine(links[k]))
  }

  /** A list section's lines: each item behind the same marker, in input order. */
  function Prefixed(marker: string, items: seq<string>): seq<string> {
    seq(|items|, k requires 0 <= k < |items| => marker + items[k])
  }

  /** The loop of `build_readme` that appends one `- [name](url)` per link. */
  method FormatStudy(links: seq<Link>) returns (lines: seq<string>)
    ensures |lines| == |links|
    ensures forall k :: 0 <= k < |links| ==> lines[k] == "- [" + links[k].name + "](" + links[k].url + ")"
    ensures lines == StudyLines(links)
  {
    lines := [];
    for i := 0 to |links|
      invariant |lines| == i
      invariant forall k :: 0 <= k < i ==> lines[k] == "- [" + links[k].name + "](" + links[k].url + ")"
    {
      lines := lines + ["- [" + links[i].name + "](" + links[i].url + ")"];
    }
  }

  /** The loops of `build_readme` that append one `<marker><item>` per item. */
  method FormatItems(marker: string, items: seq<string>) returns (lines: seq<string>)
    ensures |lines| == |items|
    ensures forall k :: 0 <= k < |items| ==> lines[k] == marker + items[k]
    ensures lines == Prefixed(marker, items)
  {
    lines := [];
    for i := 0 to |items|
      invariant |lines| == i
      invariant forall k :: 0 <= k < i ==> lines[k] == marker + items[k]
    {
      lines := lines + [marker + items[i]];
    }
  }

  /** Appending a line whose first character is not whitespace protects
      everything before it from rstrip. */
  lemma StripRightAfter(a: string, b: string)
    requires b != [] && !IsSpace(b[0])
    ensures StripRight(a + b) == a + StripRight(b)
  {
    var r := StripRight(b);
    StripRightSpec(b);
    assert r != [];
    var s := a + b;
    forall k | |a| + |r| <= k < |s| ensures IsSpace(s[k]) {
      assert s[k] == b[k - |a|];
    }
    assert s[|a| + |r| - 1] == r[|r| - 1];
    StripRightAt(s, |a| + |r|);
    assert s[..|a| + |r|] == a + b[..|r|];
  }

  /** Every line starts with a non-whitespace character and holds no
      newline. */
  predicate SingleLines(lines: seq<string>) {
    forall k :: 0 <= k < |lines| ==> lines[k] != [] && !IsSpace(lines[k][0]) && '\n' !in lines[k]
  }

  /** The body of a list section, split at its newlines, is its lines again;
      only trailing whitespace of the last line is lost to strip. This holds
      when every line starts with a non-whitespace character and no line
      contains a newline. */
  lemma {:induction false} ListBodyLines(lines: seq<string>)
    requires |lines| >= 1 && SingleLines(lines)
    ensures Split(Strip(Join(lines, "\n")), '\n') == lines[..|lines| - 1] + [StripRight(lines[|lines| - 1])]
  {
    var n := |lines|;
    var j := Join(lines, "\n");
    var init, last := lines[..n - 1], lines[n - 1];
    assert lines == init + [last];
    if n == 1 {
      StripLeftAt(j, 0);
      StripRightSpec(last);
      SplitNoSeparator(StripRight(last), '\n');
    } else {
      JoinSnoc(init, last, "\n");
      assert j == Join(init, "\n") + "\n" + last;
      assert j[0] == lines[0][0];
      StripLeftAt(j, 0);
      StripRightAfter(Join(init, "\n") + "\n", last);
      StripRightSpec(last);
      SplitAtLastSeparator(Join(init, "\n"), StripRight(last), '\n');
      SplitJoin(init, '\n');
    }
  }

  lemma {:induction false} SplitAtLastSeparator(a: string, b: string, c: char)
    requires c !in b
    ensures Split(a + [c] + b, c) == Split(a, c) + [b]
  {
    if a == [] {
      assert a + [c] + b == [c] + b;
      assert ([c] + b)[1..] == b;
      SplitNoSeparator(b, c);
    } else {
      assert (a + [c] + b)[1..] == a[1..] + [c] + b;
      SplitAtLastSeparator(a[1..], b, c);
    }
  }

  /** A non-empty study list renders as exactly one line per link, in order,
      when names and URLs are single lines. */
  lemma StudyBodyLines(links: seq<Link>)
    requires |links| >= 1
    requires forall k :: 0 <= k < |links| ==> '\n' !in links[k].name && '\n' !in links[k].url
    ensures Split(Strip(Join(StudyLines(links), "\n")), '\n') == StudyLines(links)
  {
    var lines := StudyLines(links);
    forall k | 0 <= k < |lines|
      ensures lines[k] != [] && !IsSpace(lines[k][0]) && '\n' !in lines[k]
    {
      assert lines[k][0] == '-';
    }
    assert SingleLines(lines);
    ListBodyLines(lines);
    var last := lines[|lines| - 1];
    StripRightAt(last, |last|);
    assert lines[..|lines| - 1] + [last] == lines;
  }

  /** A non-empty step, bullet or checklist renders as one marker line per
      item, in order; only trailing whitespace of the last item is dropped. */
  lemma MarkedBodyLines(marker: string, items: seq<string>)
    requires marker != [] && !IsSpace(marker[0]) && '\n' !in marker
    requires |items| >= 1
    requires forall k :: 0 <= k < |items| ==> '\n' !in items[k]
    ensures Split(Strip(Join(Prefixed(marker, items), "\n")), '\n')
         == Prefixed(marker, items[..|items| - 1]) + [StripRight(marker + items[|items| - 1])]
  {
    var lines := Prefixed(marker, items);
    PrefixedInit(marker, items);
    MarkedLinesShape(marker, items);
    ListBodyLines(lines);
  }

  /** Marked lines start with the marker's first character, so they are
      single lines when the marker and the items are. */
  lemma MarkedLinesShape(marker: string, items: seq<string>)
    requires marker != [] && !IsSpace(marker[0]) && '\n' !in marker
    requires forall k :: 0 <= k < |items| ==> '\n' !in items[k]
    ensures SingleLines(Prefixed(marker, items))
  {
    var lines := Prefixed(marker, items);
    forall k | 0 <= k < |lines|
      ensures lines[k] != [] && !IsSpace(lines[k][0]) && '\n' !in lines[k]
    {
      var line := marker + items[k];
      assert lines[k] == line;
      assert forall c :: c in line ==> c in marker || c in items[k];
    }
  }

  /** The marked lines of all items but the last, and the last one. */
  lemma PrefixedInit(marker: string, items: seq<string>)
    requires |items| >= 1
    ensures var n := |items|;
      && |Prefixed(marker, items)| == n
      && Prefixed(marker, items)[..n - 1] == Prefixed(marker, items[..n - 1])
      && Prefixed(marker, items)[n - 1] == marker + items[n - 1]
  {
  }

  // ---- build_readme ------------------------------------------------------------

  /** `# Day NN — <title>` */
  function TitleLine(day: nat, title: string): string {
    "# Day " + Pad2(day) + " \U{2014} " + title + "\n"
  }

  /** The three badges joined by single spaces, a blank line and a rule. */
  function Header(day: nat, area: string): string {
    Join([MakeBadge("Day", Pad2(day), "blue"),
          MakeBadge("Area", area, "lightgrey"),
          MakeBadge("Priority", "P0", "red")], " ") + "\n\n---\n"
  }

  /** The pieces one after the other. */
  function Concat(xs: seq<string>): string {
    if xs == [] then "" else Concat(xs[..|xs| - 1]) + xs[|xs| - 1]
  }

  /** The nine sections of a day's README in the order they are appended,
      with the defaults for absent fields. */
  function Sections(rec: DayRecord): (secs: seq<string>)
    requires rec.focus.Some?
    ensures |secs| == |Headings|
  {
    [MakeSection(FocusHeading, rec.focus.value),
     MakeSection(TimeboxHeading, rec.timebox.GetOr(DefaultTimebox)),
     MakeSection(StudyHeading, Join(StudyLines(rec.study), "\n")),
     MakeSection(BuildHeading, Join(Prefixed(StepMarker, rec.build), "\n")),
     MakeSection(AssignmentsHeading, Join(Prefixed(BulletMarker, rec.assignments), "\n")),
     MakeSection(DodHeading, Join(Prefixed(TaskMarker, rec.dod), "\n")),
     MakeSection(CommitHeading, "`" + rec.commitMsg.GetOr("") + "`"),
     MakeSection(OutcomeHeading, Join(Prefixed(BulletMarker, rec.outcome), "\n")),
     MakeSection(ReviewHeading, Join(Prefixed(BulletMarker, rec.reviewQuestions), "\n"))]
  }

  /** The README of a day, or the KeyError `build_readme` raises: `title` is
      read first, `focus` after it. */
  function Render(day: nat, rec: DayRecord): Result<string> {
    if rec.title.None? then Err(KeyError("title"))
    else if rec.focus.None? then Err(KeyError("focus"))
    else Ok(TitleLine(day, rec.title.value) + Header(day, rec.area.GetOr(DefaultArea)) + Concat(Sections(rec)))
  }

  /** `build_readme(day_number, data)`, step by step as the source builds it. */
  method BuildReadme(dayNumber: nat, rec: DayRecord) returns (doc: Result<string>)
    ensures doc == Render(dayNumber, rec)
  {
    var dayStr := Pad2(dayNumber);
    if rec.title.None? {
      return Err(KeyError("title"));
    }
    var titleLine := "# Day " + dayStr + " \U{2014} " + rec.title.value + "\n";
    var badges := Join([MakeBadge("Day", dayStr, "blue"),
                        MakeBadge("Area", rec.area.GetOr(DefaultArea), "lightgrey"),
                        MakeBadge("Priority", "P0", "red")], " ");
    var header := badges + "\n\n---\n";
    if rec.focus.None? {
      return Err(KeyError("focus"));
    }
    var focus := MakeSection(FocusHeading, rec.focus.value);
    var timebox := MakeSection(TimeboxHeading, rec.timebox.GetOr(DefaultTimebox));

    var studyLines := FormatStudy(rec.study);
    var study := MakeSection(StudyHeading, Join(studyLines, "\n"));

    var buildLines := FormatItems(StepMarker, rec.build);
    var buildSection := MakeSection(BuildHeading, Join(buildLines, "\n"));

    var assignLines := FormatItems(BulletMarker, rec.assignments);
    var assignments := MakeSection(AssignmentsHeading, Join(assignLines, "\n"));

    var dodLines := FormatItems(TaskMarker, rec.dod);
    var dodSection := MakeSection(DodHeading, Join(dodLines, "\n"));

    var commitMsg := MakeSection(CommitHeading, "`" + rec.commitMsg.GetOr("") + "`");

    var outcomeLines := FormatItems(BulletMarker, rec.outcome);
    var outcomeSection := MakeSection(OutcomeHeading, Join(outcomeLines, "\n"));

    var reviewLines := FormatItems(BulletMarker, rec.reviewQuestions);
    var reviewSection := MakeSection(ReviewHeading, Join(reviewLines, "\n"));

    doc := Ok(titleLine + header + Concat([focus, timebox, study, buildSection, assignments,
                                           dodSection, commitMsg, outcomeSection, reviewSection]));
  }

  // ---- properties of the assembled document --------------------------------------

  /** Rendering fails exactly when a mandatory key is missing, and names the
      first missing one in the order the source reads them. */
  lemma RenderFailsOnlyOnMissingKey(day: nat, rec: DayRecord)
    ensures Render(day, rec).Err? <==> rec.title.None? || rec.focus.None?
    ensures rec.title.None? ==> Render(day, rec) == Err(KeyError("title"))
    ensures rec.title.Some? && rec.focus.None? ==> Render(day, rec) == Err(KeyError("focus"))
  {
  }

  /** `### <heading>` and the blank line under it. */
  function HeadingLine(h: string): string {
    "### " + h + "\n\n"
  }

  /** A section opens with its heading line and ends with a newline. */
  lemma SectionShape(h: string, c: string)
    ensures StartsWith(MakeSection(h, c), HeadingLine(h))
    ensures MakeSection(h, c)[|MakeSection(h, c)| - 1] == '\n'
  {
    var x := MakeSection(h, c);
    assert x == HeadingLine(h) + (Strip(c) + "\n");
  }

  /** Section `k` opens with the `k`-th heading and ends with a newline. */
  lemma SectionsUnderHeadings(rec: DayRecord, k: nat)
    requires rec.focus.Some? && k < |Headings|
    ensures StartsWith(Sections(rec)[k], HeadingLine(Headings[k]))
    ensures Sections(rec)[k][|Sections(rec)[k]| - 1] == '\n'
  {
    var xs := Sections(rec);
    if k == 0 { SectionShape(FocusHeading, rec.focus.value); }
    else if k == 1 { SectionShape(TimeboxHeading, rec.timebox.GetOr(DefaultTimebox)); }
    else if k == 2 { SectionShape(StudyHeading, Join(StudyLines(rec.study), "\n")); }
    else if k == 3 { SectionShape(BuildHeading, Join(Prefixed(StepMarker, rec.build), "\n")); }
    else if k == 4 { SectionShape(AssignmentsHeading, Join(Prefixed(BulletMarker, rec.assignments), "\n")); }
    else if k == 5 { SectionShape(DodHeading, Join(Prefixed(TaskMarker, rec.dod), "\n")); }
    else if k == 6 { SectionShape(CommitHeading, "`" + rec.commitMsg.GetOr("") + "`"); }
    else if k == 7 { SectionShape(OutcomeHeading, Join(Prefixed(BulletMarker, rec.outcome), "\n")); }
    else { SectionShape(ReviewHeading, Join(Prefixed(BulletMarker, rec.reviewQuestions), "\n")); }
  }

  /** The concatenation of a prefix of the pieces is a prefix of the whole. */
  lemma {:induction false} ConcatPrefix(xs: seq<string>, k: nat)
    requires k < |xs|
    ensures StartsWith(Concat(xs), Concat(xs[..k]) + xs[k])
  {
    var n := |xs|;
    assert xs[..n][..n - 1] == xs[..n - 1];
    if k < n - 1 {
      ConcatPrefix(xs[..n - 1], k);
      assert xs[..n - 1][..k] == xs[..k];
    } else {
      assert xs[..n] == xs;
    }
  }

  /** Piece `k` of a concatenation sits right after the pieces before it. */
  lemma PieceAt(pre: string, xs: seq<string>, k: nat)
    requires k < |xs|
    ensures var off := |pre| + |Concat(xs[..k])|;
      && off + |xs[k]| <= |pre + Concat(xs)|
      && StartsWith((pre + Concat(xs))[off..], xs[k])
  {
    ConcatPrefix(xs, k);
    var c := Concat(xs[..k]);
    var doc := pre + Concat(xs);
    assert Concat(xs)[..|c| + |xs[k]|] == c + xs[k];
    assert doc[|pre| + |c|..][..|xs[k]|] == xs[k];
  }

  /** A piece that opens with `h` puts `h` into the whole right where the
      piece starts, and the next piece starts further on. */
  lemma PieceOpensWith(pre: string, xs: seq<string>, k: nat, h: string)
    requires k < |xs| && StartsWith(xs[k], h) && h != []
    ensures var off := |pre| + |Concat(xs[..k])|;
      && off < |pre + Concat(xs)|
      && StartsWith((pre + Concat(xs))[off..], h)
      && off < |pre| + |Concat(xs[..k + 1])|
  {
    PieceAt(pre, xs, k);
    ConcatStep(xs, k);
    var off := |pre| + |Concat(xs[..k])|;
    var rest := (pre + Concat(xs))[off..];
    assert rest[..|xs[k]|] == xs[k];
    assert rest[..|h|] == xs[k][..|h|];
  }

  /** The pieces before `k + 1` are those before `k` and piece `k`. */
  lemma ConcatStep(xs: seq<string>, k: nat)
    requires k < |xs|
    ensures Concat(xs[..k + 1]) == Concat(xs[..k]) + xs[k]
  {
    assert xs[..k + 1][..k] == xs[..k];
  }

  /** Where section `k` of a rendered README starts: after the title line,
      the badge header and the sections before it. */
  function SectionStart(day: nat, rec: DayRecord, k: nat): nat
    requires rec.title.Some? && rec.focus.Some? && k <= |Headings|
  {
    |TitleLine(day, rec.title.value) + Header(day, rec.area.GetOr(DefaultArea))| + |Concat(Sections(rec)[..k])|
  }

  /** Every one of the nine headings is in the README, even for a section
      whose list is empty, and they come in the fixed order: heading `k`
      is found at `SectionStart(day, rec, k)`, the first one right after
      the title line and the badge header, and each later one further on. */
  lemma HeadingsInOrder(day: nat, rec: DayRecord, k: nat)
    requires rec.title.Some? && rec.focus.Some? && k < |Headings|
    ensures Render(day, rec).Ok?
    ensures SectionStart(day, rec, 0) == |TitleLine(day, rec.title.value) + Header(day, rec.area.GetOr(DefaultArea))|
    ensures var doc, off := Render(day, rec).value, SectionStart(day, rec, k);
      && off < |doc|
      && StartsWith(doc[off..], HeadingLine(Headings[k]))
    ensures k + 1 < |Headings| ==> SectionStart(day, rec, k) < SectionStart(day, rec, k + 1)
  {
    var xs := Sections(rec);
    var pre := TitleLine(day, rec.title.value) + Header(day, rec.area.GetOr(DefaultArea));
    assert Render(day, rec) == Ok(pre + Concat(xs));
    assert SectionStart(day, rec, 0) == |pre| by {
      assert xs[..0] == [];
    }
    assert SectionStart(day, rec, k) == |pre| + |Concat(xs[..k])|;
    assert k + 1 < |Headings| ==> SectionStart(day, rec, k + 1) == |pre| + |Concat(xs[..k + 1])|;
    SectionsUnderHeadings(rec, k);
    PieceOpensWith(pre, xs, k, HeadingLine(Headings[k]));
  }

  // ---- Defaults ------------------------------------------------------------------

  /** Absent scalar fields render as their defaults: the timebox
      `~3 hours` and an empty commit message between backticks. */
  lemma ScalarDefaults(rec: DayRecord)
    requires rec.focus.Some?
    ensures rec.timebox.None? ==> Sections(rec)[1] == "### " + TimeboxHeading + "\n\n" + DefaultTimebox + "\n"
    ensures rec.commitMsg.None? ==> Sections(rec)[6] == "### " + CommitHeading + "\n\n``\n"
  {
    var xs := Sections(rec);
    if rec.timebox.None? {
      TrimmedSection(xs[1], TimeboxHeading, DefaultTimebox);
    }
    if rec.commitMsg.None? {
      TrimmedSection(xs[6], CommitHeading, "``");
    }
  }

  /** An absent list gives an empty section: its heading, then two blank
      lines. */
  lemma EmptyListSections(rec: DayRecord)
    requires rec.focus.Some?
    ensures rec.study == [] ==> Sections(rec)[2] == "### " + StudyHeading + "\n\n\n"
    ensures rec.build == [] ==> Sections(rec)[3] == "### " + BuildHeading + "\n\n\n"
    ensures rec.assignments == [] ==> Sections(rec)[4] == "### " + AssignmentsHeading + "\n\n\n"
    ensures rec.dod == [] ==> Sections(rec)[5] == "### " + DodHeading + "\n\n\n"
    ensures rec.outcome == [] ==> Sections(rec)[7] == "### " + OutcomeHeading + "\n\n\n"
    ensures rec.reviewQuestions == [] ==> Sections(rec)[8] == "### " + ReviewHeading + "\n\n\n"
  {
    var xs := Sections(rec);
    assert Join([], "\n") == [];
    if rec.study == [] {
      assert StudyLines([]) == [];
      EmptySection(xs[2], StudyHeading);
    }
    if rec.build == [] {
      assert Prefixed(StepMarker, []) == [];
      EmptySection(xs[3], BuildHeading);
    }
    if rec.assignments == [] {
      assert Prefixed(BulletMarker, []) == [];
      EmptySection(xs[4], AssignmentsHeading);
    }
    if rec.dod == [] {
      assert Prefixed(TaskMarker, []) == [];
      EmptySection(xs[5], DodHeading);
    }
    if rec.outcome == [] {
      assert Prefixed(BulletMarker, []) == [];
      EmptySection(xs[7], OutcomeHeading);
    }
    if rec.reviewQuestions == [] {
      assert Prefixed(BulletMarker, []) == [];
      EmptySection(xs[8], ReviewHeading);
    }
  }

  /** A section with no content is its heading and two blank lines. */
  lemma EmptySection(section: string, title: string)
    requires section == MakeSection(title, [])
    ensures section == "### " + title + "\n\n\n"
  {
    SectionOfTrimmed(title, []);
  }

  /** A section whose content has no surrounding whitespace shows the
      content unchanged. */
  lemma TrimmedSection(section: string, title: string, content: string)
    requires Trimmed(content) && section == MakeSection(title, content)
    ensures section == "### " + title + "\n\n" + content + "\n"
  {
    SectionOfTrimmed(title, content);
  }
}
