/**
 * The document-processing service: the upload checks in front of the generative API, and the
 * post-processing that turns the generated markdown into a table of contents — a flat, in-order
 * list of `#` and `##` sections, then each `#` section given the `##` sections that follow it.
 *
 * The specification is the segment decomposition of the lines: an optional preamble without
 * heading lines, then segments, each a heading line followed by the maximal run of non-heading
 * lines. Every segment becomes a section, except that the last one is kept only when its
 * trimmed body is not empty. The two passes of the source are methods proved against it.
 */
module DocumentProcessing {
  import opened Wrappers
  import opened Text
  import opened JsValue

  /** A table-of-contents entry. Level-1 sections carry their level-2 sections; level-2 sections carry none. */
  datatype Section = Section(title: string, level: nat, content: string, subsections: seq<Section>)

  datatype Heading = Heading(level: nat, title: string)

  /** What `(.+)` captures: the longest prefix without a line terminator. */
  function UpToLineEnd(s: string): (r: string)
    ensures |r| <= |s| && r == s[..|r|]
    ensures forall i :: 0 <= i < |r| ==> !IsLineTerminator(r[i])
    ensures |r| < |s| ==> IsLineTerminator(s[|r|])
  {
    if s == [] || IsLineTerminator(s[0]) then [] else [s[0]] + UpToLineEnd(s[1..])
  }

  /**
   * 1 for a line matching `^# (.+)`, else 2 for a line matching `^## (.+)`, else 0: the marker must be
   * followed by at least one character that is not a line terminator.
   */
  function HeadingLevel(line: string): (n: nat)
    ensures n <= 2
  {
    if |line| > 2 && line[0] == '#' && line[1] == ' ' && !IsLineTerminator(line[2]) then 1
    else if |line| > 3 && line[0] == '#' && line[1] == '#' && line[2] == ' ' && !IsLineTerminator(line[3]) then 2
    else 0
  }

  predicate IsHeading(line: string) {
    HeadingLevel(line) != 0
  }

  /** The text captured by `(.+)`; empty for a line that is not a heading. */
  function HeadingTitle(line: string): string {
    if IsHeading(line) then UpToLineEnd(line[HeadingLevel(line) + 1..]) else ""
  }

  /** The heading a line opens, if any. */
  function ParseHeading(line: string): Option<Heading> {
    if IsHeading(line) then Some(Heading(HeadingLevel(line), HeadingTitle(line))) else None
  }

  /** A heading is of level 1 or 2 and has a non-empty title. */
  lemma HeadingShape(line: string)
    requires IsHeading(line)
    ensures HeadingLevel(line) == 1 || HeadingLevel(line) == 2
    ensures HeadingTitle(line) != ""
  {
    var rest := line[HeadingLevel(line) + 1..];
    assert rest[0] == line[HeadingLevel(line) + 1];
  }

  /**
   * A line opens a level-1 section exactly when it starts with "# " and one more character that is
   * not a line terminator, and a level-2 section exactly when it starts with "## " likewise; "###"
   * lines are body text. The title is the rest of the line up to a line terminator, untrimmed.
   */
  lemma HeadingRecognition(line: string)
    ensures HeadingLevel(line) == 1 <==> StartsWith(line, "# ") && |line| > 2 && !IsLineTerminator(line[2])
    ensures HeadingLevel(line) == 2 <==> StartsWith(line, "## ") && |line| > 3 && !IsLineTerminator(line[3])
    ensures StartsWith(line, "###") ==> !IsHeading(line)
    ensures IsHeading(line) ==>
              var start := HeadingLevel(line) + 1;
              var title := HeadingTitle(line);
              && title != ""
              && start + |title| <= |line|
              && title == line[start..start + |title|]
              && (start + |title| == |line| || IsLineTerminator(line[start + |title|]))
  {
    if StartsWith(line, "# ") {
      assert line[0] == "# "[0] && line[1] == "# "[1];
    }
    if StartsWith(line, "## ") {
      assert line[0] == "## "[0] && line[1] == "## "[1] && line[2] == "## "[2];
    }
    if |line| > 2 && line[0] == '#' && line[1] == ' ' {
      assert line[..2] == "# ";
    }
    if |line| > 3 && line[0] == '#' && line[1] == '#' && line[2] == ' ' {
      assert line[..3] == "## ";
    }
    if StartsWith(line, "###") {
      assert line[1] == "###"[1] && line[2] == "###"[2];
    }
    if IsHeading(line) {
      var start := HeadingLevel(line) + 1;
      var title := HeadingTitle(line);
      assert title[0] == line[start];
      assert line[start..][..|title|] == line[start..start + |title|];
    }
  }

  /** Titles keep their surrounding blanks; a marker with nothing after it is not a heading. */
  lemma TitlesAreNotTrimmed()
    ensures ParseHeading("#  Intro ") == Some(Heading(1, " Intro "))
    ensures ParseHeading("# ") == None
  {
    var a := "#  Intro ";
    assert a[2..] == " Intro ";
    UpToLineEndWhole(" Intro ");
  }

  /** A title stops at a carriage return: `.` does not match line terminators. */
  lemma TitleStopsAtLineTerminator()
    ensures ParseHeading("## Setup\r") == Some(Heading(2, "Setup"))
  {
    var b := "## Setup\r";
    assert b[3..] == "Setup" + "\r";
    UpToLineEndStops("Setup", "\r");
  }

  lemma {:induction false} UpToLineEndWhole(s: string)
    requires forall i :: 0 <= i < |s| ==> !IsLineTerminator(s[i])
    ensures UpToLineEnd(s) == s
    decreases |s|
  {
    if s != [] {
      UpToLineEndWhole(s[1..]);
    }
  }

  lemma UpToLineEndStops(s: string, t: string)
    requires forall i :: 0 <= i < |s| ==> !IsLineTerminator(s[i])
    requires t != [] && IsLineTerminator(t[0])
    ensures UpToLineEnd(s + t) == s
  {
    var u := s + t;
    assert forall i :: 0 <= i < |s| ==> u[i] == s[i];
    assert u[|s|] == t[0];
    assert u[..|s|] == s;
  }

  /** The body text of a section: every line followed by "\n", as `currentContent += line + '\n'` builds it. */
  function JoinLines(ls: seq<string>): string {
    if ls == [] then "" else JoinLines(ls[..|ls| - 1]) + ls[|ls| - 1] + "\n"
  }

  /** A heading line and the non-heading lines that follow it up to the next heading line (or the end). */
  datatype Segment = Segment(heading: string, body: seq<string>)

  predicate NoHeadings(ls: seq<string>) {
    forall i :: 0 <= i < |ls| ==> !IsHeading(ls[i])
  }

  predicate WellFormed(seg: Segment) {
    IsHeading(seg.heading) && NoHeadings(seg.body)
  }

  /**
   * The segments of the lines, grown line by line: a heading line opens a new segment; any other line
   * joins the last segment, or belongs to the preamble while no heading line has been seen.
   */
  function Segments(lines: seq<string>): seq<Segment> {
    if lines == [] then []
    else
      var segs := Segments(lines[..|lines| - 1]);
      var l := lines[|lines| - 1];
      if IsHeading(l) then segs + [Segment(l, [])]
      else if segs == [] then []
      else segs[..|segs| - 1] + [Segment(segs[|segs| - 1].heading, segs[|segs| - 1].body + [l])]
  }

  /** The lines before the first heading line (all of them when there is none). */
  function Preamble(lines: seq<string>): seq<string> {
    if lines == [] then []
    else if Segments(lines) == [] then lines
    else Preamble(lines[..|lines| - 1])
  }

  /** The lines a list of segments stands for. */
  function Unsegment(segs: seq<Segment>): seq<string> {
    if segs == [] then []
    else Unsegment(segs[..|segs| - 1]) + [segs[|segs| - 1].heading] + segs[|segs| - 1].body
  }

  /** Every segment is well formed, and there are none exactly when no line is a heading. */
  lemma {:induction false} SegmentsWellFormed(lines: seq<string>)
    ensures forall k :: 0 <= k < |Segments(lines)| ==> WellFormed(Segments(lines)[k])
    ensures Segments(lines) == [] <==> NoHeadings(lines)
    decreases |lines|
  {
    if lines != [] {
      var init := lines[..|lines| - 1];
      var l := lines[|lines| - 1];
      SegmentsWellFormed(init);
      assert lines == init + [l];
      var segs := Segments(init);
      if IsHeading(l) {
        SegmentsPartitionHeading(init, l);
      } else if segs != [] {
        SegmentsPartitionBody(init, l);
        var i :| 0 <= i < |init| && IsHeading(init[i]);
        assert lines[i] == init[i];
      }
    }
  }

  /**
   * The decomposition is a partition of the lines: the preamble, which holds no heading line, followed
   * by the segments, each a heading line and then only non-heading lines.
   */
  lemma {:induction false} SegmentsPartition(lines: seq<string>)
    ensures NoHeadings(Preamble(lines))
    ensures lines == Preamble(lines) + Unsegment(Segments(lines))
    decreases |lines|
  {
    if lines != [] {
      var init := lines[..|lines| - 1];
      var l := lines[|lines| - 1];
      SegmentsPartition(init);
      assert lines == init + [l];
      PartitionSnoc(init, l);
    }
  }

  /** One more line keeps the partition. */
  lemma PartitionSnoc(init: seq<string>, l: string)
    requires NoHeadings(Preamble(init))
    requires init == Preamble(init) + Unsegment(Segments(init))
    ensures NoHeadings(Preamble(init + [l]))
    ensures init + [l] == Preamble(init + [l]) + Unsegment(Segments(init + [l]))
  {
    if IsHeading(l) || Segments(init) != [] {
      UnsegmentSnocLine(init, l);
      AppendLine(Preamble(init), Unsegment(Segments(init)), l);
    } else {
      PreambleGrows(init, l);
    }
  }

  lemma AppendLine(pre: seq<string>, rest: seq<string>, l: string)
    ensures pre + rest + [l] == pre + (rest + [l])
  {
  }

  /** Before the first heading line, a non-heading line joins the preamble. */
  lemma PreambleGrows(init: seq<string>, l: string)
    requires !IsHeading(l) && Segments(init) == []
    requires NoHeadings(Preamble(init)) && init == Preamble(init) + Unsegment(Segments(init))
    ensures Segments(init + [l]) == [] && Preamble(init + [l]) == init + [l]
    ensures NoHeadings(init + [l])
  {
    SegmentsSnoc(init, l);
    assert init == Preamble(init);
    assert forall i :: 0 <= i < |init| ==> (init + [l])[i] == init[i];
  }

  /** A heading line, or a line once a heading has been seen, is added to the segments' lines. */
  lemma UnsegmentSnocLine(init: seq<string>, l: string)
    requires IsHeading(l) || Segments(init) != []
    ensures Unsegment(Segments(init + [l])) == Unsegment(Segments(init)) + [l]
    ensures Preamble(init + [l]) == Preamble(init)
  {
    SegmentsSnoc(init, l);
    var segs := Segments(init);
    if IsHeading(l) {
      UnsegmentSnoc(segs, Segment(l, []));
    } else {
      var front, last := segs[..|segs| - 1], segs[|segs| - 1];
      SnocLast(segs);
      UnsegmentSnoc(front, last);
      UnsegmentSnoc(front, Segment(last.heading, last.body + [l]));
    }
  }

  /** How the segments and the preamble grow by one line. */
  lemma SegmentsSnoc(init: seq<string>, l: string)
    ensures var segs := Segments(init);
            Segments(init + [l]) ==
              if IsHeading(l) then segs + [Segment(l, [])]
              else if segs == [] then []
              else segs[..|segs| - 1] + [Segment(segs[|segs| - 1].heading, segs[|segs| - 1].body + [l])]
    ensures Preamble(init + [l]) == if Segments(init + [l]) == [] then init + [l] else Preamble(init)
  {
    assert (init + [l])[..|init|] == init;
  }

  lemma UnsegmentSnoc(front: seq<Segment>, seg: Segment)
    ensures Unsegment(front + [seg]) == Unsegment(front) + [seg.heading] + seg.body
  {
    assert (front + [seg])[..|front|] == front;
  }

  lemma UniqueHeadingStep(init: seq<string>, pre: seq<string>, front: seq<Segment>, h: string)
    requires Segments(init) == front && Preamble(init) == pre && IsHeading(h)
    ensures Segments(init + [h]) == front + [Segment(h, [])] && Preamble(init + [h]) == pre
  {
    SegmentsSnoc(init, h);
  }

  lemma UniqueBodyStep(init: seq<string>, pre: seq<string>, front: seq<Segment>, h: string, body: seq<string>, x: string)
    requires Segments(init) == front + [Segment(h, body)] && Preamble(init) == pre && !IsHeading(x)
    ensures Segments(init + [x]) == front + [Segment(h, body + [x])] && Preamble(init + [x]) == pre
  {
    SegmentsSnoc(init, x);
    assert (front + [Segment(h, body)])[..|front|] == front;
  }

  predicate AllWellFormed(segs: seq<Segment>) {
    forall k :: 0 <= k < |segs| ==> WellFormed(segs[k])
  }

  /** Dropping the last line of the last segment leaves well-formed segments. */
  lemma WellFormedShorter(front: seq<Segment>, h: string, body: seq<string>, x: string)
    requires AllWellFormed(front + [Segment(h, body + [x])])
    ensures AllWellFormed(front + [Segment(h, body)]) && !IsHeading(x)
  {
    var segs := front + [Segment(h, body + [x])];
    assert segs[|front|] == Segment(h, body + [x]);
    assert (body + [x])[|body|] == x;
    forall k | 0 <= k < |front| + 1 ensures WellFormed((front + [Segment(h, body)])[k]) {
      if k < |front| {
        assert segs[k] == front[k];
      } else {
        assert forall i :: 0 <= i < |body| ==> body[i] == (body + [x])[i];
      }
    }
  }

  /**
   * The decomposition is the only one: a prefix without heading lines followed by well-formed segments
   * that together spell out the lines is necessarily the preamble and the segments.
   */
  lemma {:induction false} SegmentsUnique(lines: seq<string>, pre: seq<string>, segs: seq<Segment>)
    requires NoHeadings(pre)
    requires AllWellFormed(segs)
    requires lines == pre + Unsegment(segs)
    ensures Segments(lines) == segs && Preamble(lines) == pre
    decreases |lines|
  {
    if segs == [] {
      assert lines == pre;
      NoHeadingsAllPreamble(lines);
    } else {
      var front, last := segs[..|segs| - 1], segs[|segs| - 1];
      if last.body == [] {
        var init := pre + Unsegment(front);
        LastHeadingSplit(pre, segs);
        assert lines == init + [last.heading];
        SegmentsUnique(init, pre, front);
        assert Segments(lines) == segs && Preamble(lines) == pre by {
          UniqueHeadingStep(init, pre, front, last.heading);
          SnocLast(segs);
        }
      } else {
        var body, x := last.body[..|last.body| - 1], last.body[|last.body| - 1];
        var shorter := front + [Segment(last.heading, body)];
        var init := pre + Unsegment(shorter);
        LastBodySplit(pre, segs);
        assert lines == init + [x];
        SegmentsUnique(init, pre, shorter);
        assert Segments(lines) == segs && Preamble(lines) == pre by {
          UniqueBodyStep(init, pre, front, last.heading, body, x);
          SnocLast(last.body);
          SnocLast(segs);
        }
      }
    }
  }

  /** Lines without a heading line are all preamble. */
  lemma NoHeadingsAllPreamble(lines: seq<string>)
    requires NoHeadings(lines)
    ensures Segments(lines) == [] && Preamble(lines) == lines
  {
    SegmentsWellFormed(lines);
  }

  /** The lines of segments whose last one has no body end with that segment's heading line. */
  lemma LastHeadingSplit(pre: seq<string>, segs: seq<Segment>)
    requires segs != [] && segs[|segs| - 1].body == [] && AllWellFormed(segs)
    ensures var front, last := segs[..|segs| - 1], segs[|segs| - 1];
            && AllWellFormed(front) && IsHeading(last.heading)
            && pre + Unsegment(segs) == pre + Unsegment(front) + [last.heading]
  {
    var front, last := segs[..|segs| - 1], segs[|segs| - 1];
    SnocLast(segs);
    UnsegmentSnoc(front, last);
    assert Unsegment(segs) == Unsegment(front) + [last.heading];
    forall k | 0 <= k < |front| ensures WellFormed(front[k]) {
      assert front[k] == segs[k];
    }
  }

  /** The lines of segments whose last one has a body end with that body's last line. */
  lemma LastBodySplit(pre: seq<string>, segs: seq<Segment>)
    requires segs != [] && segs[|segs| - 1].body != [] && AllWellFormed(segs)
    ensures var front, last := segs[..|segs| - 1], segs[|segs| - 1];
            var body, x := last.body[..|last.body| - 1], last.body[|last.body| - 1];
            var shorter := front + [Segment(last.heading, body)];
            && AllWellFormed(shorter) && !IsHeading(x)
            && pre + Unsegment(segs) == pre + Unsegment(shorter) + [x]
  {
    var front, last := segs[..|segs| - 1], segs[|segs| - 1];
    var body, x := last.body[..|last.body| - 1], last.body[|last.body| - 1];
    SnocLast(last.body);
    SnocLast(segs);
    assert last == Segment(last.heading, body + [x]);
    WellFormedShorter(front, last.heading, body, x);
    UnsegmentSnoc(front, Segment(last.heading, body + [x]));
    UnsegmentSnoc(front, Segment(last.heading, body));
  }

  /** The step of the partition for a heading line, which opens a segment. */
  lemma SegmentsPartitionHeading(init: seq<string>, l: string)
    requires IsHeading(l)
    requires forall k :: 0 <= k < |Segments(init)| ==> WellFormed(Segments(init)[k])
    ensures var segs := Segments(init + [l]);
            && Unsegment(segs) == Unsegment(Segments(init)) + [l]
            && Preamble(init + [l]) == Preamble(init)
            && !NoHeadings(init + [l])
            && forall k :: 0 <= k < |segs| ==> WellFormed(segs[k])
  {
    var lines := init + [l];
    assert lines[..|lines| - 1] == init;
    var segs := Segments(init);
    var next := segs + [Segment(l, [])];
    assert Segments(lines) == next;
    assert next[..|next| - 1] == segs;
    assert lines[|lines| - 1] == l;
  }

  /** The step of the partition for a body line that joins the last segment. */
  lemma SegmentsPartitionBody(init: seq<string>, l: string)
    requires !IsHeading(l) && Segments(init) != []
    requires forall k :: 0 <= k < |Segments(init)| ==> WellFormed(Segments(init)[k])
    ensures var segs := Segments(init + [l]);
            && Unsegment(segs) == Unsegment(Segments(init)) + [l]
            && Preamble(init + [l]) == Preamble(init)
            && forall k :: 0 <= k < |segs| ==> WellFormed(segs[k])
  {
    var lines := init + [l];
    assert lines[..|lines| - 1] == init;
    var segs := Segments(init);
    var last := segs[|segs| - 1];
    var front := segs[..|segs| - 1];
    var next := front + [Segment(last.heading, last.body + [l])];
    assert Segments(lines) == next;
    assert next[..|next| - 1] == front;
    assert segs == front + [last];
    assert Unsegment(segs) == Unsegment(front) + [last.heading] + last.body;
    assert Unsegment(next) == Unsegment(front) + [last.heading] + (last.body + [l]);
    assert WellFormed(last);
    assert WellFormed(next[|next| - 1]);
  }

  /** The section the source pushes when it closes one: the accumulated text trimmed, no subsections yet. */
  function Close(h: Heading, body: string): Section {
    Section(h.title, h.level, Trim(body), [])
  }

  /** The section a segment stands for: its heading, and its body lines joined and trimmed. */
  function SectionOf(seg: Segment): Section {
    Section(HeadingTitle(seg.heading), HeadingLevel(seg.heading), Trim(JoinLines(seg.body)), [])
  }

  function SectionsOf(segs: seq<Segment>): (r: seq<Section>)
    ensures |r| == |segs|
    ensures forall k :: 0 <= k < |segs| ==> r[k] == SectionOf(segs[k])
  {
    if segs == [] then [] else SectionsOf(segs[..|segs| - 1]) + [SectionOf(segs[|segs| - 1])]
  }

  /**
   * The first pass: one section per segment, its content the trimmed body; every section but the
   * last is kept even when empty, the last only when its trimmed body is not empty.
   */
  function FlatSections(lines: seq<string>): seq<Section> {
    var segs := Segments(lines);
    if segs == [] then []
    else
      var last := segs[|segs| - 1];
      SectionsOf(segs[..|segs| - 1]) + (if Trim(JoinLines(last.body)) != "" then [SectionOf(last)] else [])
  }

  /**
   * The first pass, as the source's `forEach` over the lines runs it: a heading closes the open
   * section (if any) and opens a new one with an empty accumulator; any other line is appended to the
   * accumulator; at the end the open section is kept only if its trimmed body is not empty.
   */
  method ExtractFlatSections(lines: seq<string>) returns (sections: seq<Section>)
    ensures sections == FlatSections(lines)
  {
    sections := [];
    var current: Option<Heading> := None;
    var currentContent := "";
    for i := 0 to |lines|
      invariant var segs := Segments(lines[..i]);
                && (current.None? <==> segs == [])
                && (current.None? ==> sections == [])
                && (current.Some? ==>
                      var last := segs[|segs| - 1];
                      && current.value == Heading(HeadingLevel(last.heading), HeadingTitle(last.heading))
                      && currentContent == JoinLines(last.body)
                      && sections == SectionsOf(segs[..|segs| - 1]))
    {
      var line := lines[i];
      assert lines[..i + 1][..i] == lines[..i];
      var segs := Segments(lines[..i]);
      var heading := ParseHeading(line);
      if heading.Some? {
        if current.Some? {
          sections := sections + [Close(current.value, currentContent)];
          assert (segs + [Segment(line, [])])[..|segs|] == segs;
          assert segs[..|segs| - 1] + [segs[|segs| - 1]] == segs;
        }
        current := heading;
        currentContent := "";
      } else {
        if segs != [] {
          var last := segs[|segs| - 1];
          var next := segs[..|segs| - 1] + [Segment(last.heading, last.body + [line])];
          assert next[..|next| - 1] == segs[..|segs| - 1];
          assert (last.body + [line])[..|last.body|] == last.body;
        }
        currentContent := currentContent + line + "\n";
      }
    }
    assert lines[..|lines|] == lines;
    if current.Some? && Trim(currentContent) != "" {
      sections := sections + [Close(current.value, currentContent)];
    }
  }

  // ---------------------------------------------------------------------------------------------
  // Properties of the first pass.

  /**
   * Every flat section is a level-1 or level-2 section with a non-empty title, a trimmed body and no
   * subsections.
   */
  lemma FlatSectionsShape(lines: seq<string>)
    ensures forall k :: 0 <= k < |FlatSections(lines)| ==>
              var s := FlatSections(lines)[k];
              (s.level == 1 || s.level == 2) && s.title != "" && Trim(s.content) == s.content && s.subsections == []
  {
    var segs := Segments(lines);
    SegmentsWellFormed(lines);
    FlatSectionsBySegment(lines);
    forall k | 0 <= k < |segs|
      ensures var s := SectionOf(segs[k]); (s.level == 1 || s.level == 2) && s.title != "" && Trim(s.content) == s.content
    {
      HeadingShape(segs[k].heading);
      TrimIdempotent(JoinLines(segs[k].body));
    }
  }

  /**
   * Sections correspond to segments in order: the k-th section is the k-th segment's heading with the
   * trimmed text of its body lines. Every segment but the last gives a section, even an empty one; the
   * last gives one exactly when its trimmed body is not empty.
   */
  lemma FlatSectionsBySegment(lines: seq<string>)
    ensures var segs := Segments(lines);
            var flat := FlatSections(lines);
            && (segs == [] ==> flat == [])
            && (segs != [] ==>
                  (|flat| == |segs| <==> Trim(JoinLines(segs[|segs| - 1].body)) != "")
                  && |segs| - 1 <= |flat| <= |segs|)
            && forall k :: 0 <= k < |flat| ==> flat[k] == SectionOf(segs[k])
  {
  }

  lemma {:induction false} SegmentsIgnorePreamble(pre: seq<string>, rest: seq<string>)
    requires NoHeadings(pre)
    ensures Segments(pre + rest) == Segments(rest)
    decreases |rest|
  {
    if rest == [] {
      assert pre + rest == pre;
      SegmentsWellFormed(pre);
    } else {
      var all := pre + rest;
      assert all[..|all| - 1] == pre + rest[..|rest| - 1];
      assert all[|all| - 1] == rest[|rest| - 1];
      SegmentsIgnorePreamble(pre, rest[..|rest| - 1]);
    }
  }

  /** Lines before the first heading never reach any section: dropping them changes nothing. */
  lemma PreambleIsDiscarded(pre: seq<string>, rest: seq<string>)
    requires NoHeadings(pre)
    ensures FlatSections(pre + rest) == FlatSections(rest)
  {
    SegmentsIgnorePreamble(pre, rest);
  }

  /** The heading lines, in document order. */
  function HeadingLines(lines: seq<string>): seq<string> {
    if lines == [] then []
    else HeadingLines(lines[..|lines| - 1]) + (if IsHeading(lines[|lines| - 1]) then [lines[|lines| - 1]] else [])
  }

  function SegmentHeadings(segs: seq<Segment>): (r: seq<string>)
    ensures |r| == |segs|
    ensures forall k :: 0 <= k < |segs| ==> r[k] == segs[k].heading
  {
    if segs == [] then [] else SegmentHeadings(segs[..|segs| - 1]) + [segs[|segs| - 1].heading]
  }

  /** The segments open exactly at the heading lines, in document order. */
  lemma {:induction false} SegmentsFollowHeadings(lines: seq<string>)
    ensures SegmentHeadings(Segments(lines)) == HeadingLines(lines)
    decreases |lines|
  {
    if lines != [] {
      var init := lines[..|lines| - 1];
      SegmentsFollowHeadings(init);
      var segs := Segments(init);
      if !IsHeading(lines[|lines| - 1]) && segs != [] {
        var last := segs[|segs| - 1];
        var next := segs[..|segs| - 1] + [Segment(last.heading, last.body + [lines[|lines| - 1]])];
        assert SegmentHeadings(next) == SegmentHeadings(segs);
      }
    }
  }

  /**
   * Document order: the k-th flat section has the title and level of the k-th heading line, and there
   * is one section per heading line except possibly the last.
   */
  lemma FlatSectionsInDocumentOrder(lines: seq<string>)
    ensures var flat := FlatSections(lines);
            var hs := HeadingLines(lines);
            && |hs| - 1 <= |flat| <= |hs|
            && forall k :: 0 <= k < |flat| ==>
                 flat[k].title == HeadingTitle(hs[k]) && flat[k].level == HeadingLevel(hs[k])
  {
    SegmentsFollowHeadings(lines);
    FlatSectionsBySegment(lines);
  }

  /** Text without heading lines yields no sections at all. */
  lemma NoHeadingsNoSections(lines: seq<string>)
    requires NoHeadings(lines)
    ensures FlatSections(lines) == []
  {
    SegmentsWellFormed(lines);
  }

  // ---------------------------------------------------------------------------------------------
  // The second pass: each level-1 section receives the level-2 sections between it and the next
  // level-1 section.

  /** The first position at or after `i` that holds a level-1 section, or the length when none does. */
  function NextMainFrom(flat: seq<Section>, i: nat): (n: nat)
    requires i <= |flat|
    ensures i <= n <= |flat|
    ensures forall j :: i <= j < n ==> flat[j].level != 1
    ensures n < |flat| ==> flat[n].level == 1
    decreases |flat| - i
  {
    if i == |flat| || flat[i].level == 1 then i else NextMainFrom(flat, i + 1)
  }

  /** The level-2 sections among `ss`, in order. */
  function Level2(ss: seq<Section>): (r: seq<Section>)
    ensures forall k :: 0 <= k < |r| ==> r[k].level == 2
  {
    if ss == [] then [] else Level2(ss[..|ss| - 1]) + (if ss[|ss| - 1].level == 2 then [ss[|ss| - 1]] else [])
  }

  /** The main section at position `i` with its subsections attached. */
  function WithSubsections(flat: seq<Section>, i: nat): Section
    requires i < |flat|
  {
    flat[i].(subsections := Level2(flat[i + 1..NextMainFrom(flat, i + 1)]))
  }

  function MainsFrom(flat: seq<Section>, i: nat): seq<Section>
    requires i <= |flat|
    decreases |flat| - i
  {
    if i == |flat| then []
    else (if flat[i].level == 1 then [WithSubsections(flat, i)] else []) + MainsFrom(flat, i + 1)
  }

  /** The result of the second pass: the level-1 sections in order, each with its subsections. */
  function Hierarchy(flat: seq<Section>): seq<Section> {
    MainsFrom(flat, 0)
  }

  /** The level-2 sections at positions `p < j` with `lo < p < hi`: what the filter has kept after `j` steps. */
  function Level2Within(flat: seq<Section>, lo: nat, hi: nat, j: nat): seq<Section>
    requires j <= |flat|
  {
    if j == 0 then []
    else Level2Within(flat, lo, hi, j - 1) + (if flat[j - 1].level == 2 && lo < j - 1 < hi then [flat[j - 1]] else [])
  }

  /** The level-2 sections strictly between `lo` and `hi` among the first `j` positions. */
  function Level2Between(flat: seq<Section>, lo: nat, hi: nat, j: nat): seq<Section>
    requires lo < hi <= |flat| && j <= |flat|
  {
    if j <= lo + 1 then [] else Level2(flat[lo + 1..if j < hi then j else hi])
  }

  lemma {:induction false} Level2WithinSlice(flat: seq<Section>, lo: nat, hi: nat, j: nat)
    requires lo < hi <= |flat| && j <= |flat|
    ensures Level2Within(flat, lo, hi, j) == Level2Between(flat, lo, hi, j)
    decreases j
  {
    if j > 0 {
      Level2WithinSlice(flat, lo, hi, j - 1);
      Level2WithinStep(flat, lo, hi, j);
    }
  }

  lemma Level2WithinStep(flat: seq<Section>, lo: nat, hi: nat, j: nat)
    requires lo < hi <= |flat| && 0 < j <= |flat|
    requires Level2Within(flat, lo, hi, j - 1) == Level2Between(flat, lo, hi, j - 1)
    ensures Level2Within(flat, lo, hi, j) == Level2Between(flat, lo, hi, j)
  {
    if j <= lo + 1 {
    } else if j <= hi {
      if j - 1 == lo + 1 {
        Level2Empty(flat[lo + 1..j - 1]);
      }
      Level2Step(flat, lo + 1, j);
    } else if j - 1 == lo + 1 {
      Level2Empty(flat[lo + 1..hi]);
    }
  }

  lemma Level2Empty(ss: seq<Section>)
    requires |ss| == 0
    ensures Level2(ss) == []
  {
  }

  /** Filtering a slice one element longer adds that element when it is a level-2 section. */
  lemma Level2Step(flat: seq<Section>, a: nat, j: nat)
    requires a < j <= |flat|
    ensures Level2(flat[a..j]) == Level2(flat[a..j - 1]) + (if flat[j - 1].level == 2 then [flat[j - 1]] else [])
  {
    var s := flat[a..j];
    assert s[..|s| - 1] == flat[a..j - 1];
  }

  /** `sections.findIndex((s, i) => i > mainIndex && s.level === 1)`: -1 when there is none. */
  method FindNextMain(flat: seq<Section>, mainIndex: nat) returns (next: int)
    requires mainIndex < |flat|
    ensures next == -1 <==> NextMainFrom(flat, mainIndex + 1) == |flat|
    ensures next != -1 ==> next == NextMainFrom(flat, mainIndex + 1)
  {
    var k := 0;
    while k < |flat|
      invariant 0 <= k <= |flat|
      invariant forall j :: 0 <= j < k ==> !(j > mainIndex && flat[j].level == 1)
    {
      if k > mainIndex && flat[k].level == 1 {
        assert forall j :: mainIndex + 1 <= j < k ==> flat[j].level != 1;
        NextMainFromIsFirst(flat, mainIndex + 1, k);
        return k;
      }
      k := k + 1;
    }
    NextMainFromIsFirst(flat, mainIndex + 1, |flat|);
    return -1;
  }

  lemma {:induction false} NextMainFromIsFirst(flat: seq<Section>, i: nat, n: nat)
    requires i <= n <= |flat|
    requires forall j :: i <= j < n ==> flat[j].level != 1
    requires n < |flat| ==> flat[n].level == 1
    ensures NextMainFrom(flat, i) == n
    decreases n - i
  {
    if i < n {
      NextMainFromIsFirst(flat, i + 1, n);
    }
  }

  /**
   * `sections.filter((s, i) => s.level === 2 && i > mainIndex && (next === -1 || i < next))`: the
   * level-2 sections between the main section and the next one.
   */
  method CollectSubsections(flat: seq<Section>, mainIndex: nat, next: int) returns (subs: seq<Section>)
    requires mainIndex < |flat|
    requires next == -1 <==> NextMainFrom(flat, mainIndex + 1) == |flat|
    requires next != -1 ==> next == NextMainFrom(flat, mainIndex + 1)
    ensures subs == Level2(flat[mainIndex + 1..NextMainFrom(flat, mainIndex + 1)])
  {
    var hi := if next == -1 then |flat| else next;
    subs := [];
    for j := 0 to |flat|
      invariant subs == Level2Within(flat, mainIndex, hi, j)
    {
      if flat[j].level == 2 && j > mainIndex && (next == -1 || j < next) {
        subs := subs + [flat[j]];
      }
    }
    Level2WithinSlice(flat, mainIndex, hi, |flat|);
    if hi <= mainIndex + 1 {
      assert flat[mainIndex + 1..hi] == [];
    }
  }

  /**
   * The second pass as the source runs it: for each level-1 section, find the index of the next
   * level-1 section, then keep, in order, the level-2 sections whose index lies strictly between.
   */
  method Organize(flat: seq<Section>) returns (mains: seq<Section>)
    ensures mains == Hierarchy(flat)
  {
    mains := [];
    for i := 0 to |flat|
      invariant mains + MainsFrom(flat, i) == Hierarchy(flat)
    {
      if flat[i].level == 1 {
        var next := FindNextMain(flat, i);
        var subs := CollectSubsections(flat, i, next);
        mains := mains + [flat[i].(subsections := subs)];
      }
    }
  }

  /** A main section and its subsections, laid back out flat in order. */
  function Flatten(mains: seq<Section>): seq<Section> {
    if mains == [] then [] else [mains[0].(subsections := [])] + mains[0].subsections + Flatten(mains[1..])
  }

  predicate FlatShape(flat: seq<Section>) {
    forall k :: 0 <= k < |flat| ==> (flat[k].level == 1 || flat[k].level == 2) && flat[k].subsections == []
  }

  lemma {:induction false} MainsSkipSubsections(flat: seq<Section>, j: nat, n: nat)
    requires j <= n <= |flat|
    requires forall p :: j <= p < n ==> flat[p].level != 1
    ensures MainsFrom(flat, j) == MainsFrom(flat, n)
    decreases n - j
  {
    if j < n {
      MainsSkipSubsections(flat, j + 1, n);
    }
  }

  lemma {:induction false} Level2AllLevel2(ss: seq<Section>)
    requires forall k :: 0 <= k < |ss| ==> ss[k].level == 2
    ensures Level2(ss) == ss
  {
    if ss != [] {
      Level2AllLevel2(ss[..|ss| - 1]);
    }
  }

  lemma FlattenCons(m: Section, ms: seq<Section>)
    ensures Flatten([m] + ms) == [m.(subsections := [])] + m.subsections + Flatten(ms)
  {
    assert ([m] + ms)[1..] == ms;
  }

  /** A main section's attached subsections are all the sections up to the next main section. */
  lemma SubsectionsAreBetween(flat: seq<Section>, i: nat)
    requires FlatShape(flat) && i < |flat|
    ensures WithSubsections(flat, i).subsections == flat[i + 1..NextMainFrom(flat, i + 1)]
  {
    var between := flat[i + 1..NextMainFrom(flat, i + 1)];
    forall k | 0 <= k < |between| ensures between[k].level == 2 {
      assert between[k] == flat[i + 1 + k];
    }
    Level2AllLevel2(between);
  }

  /** A main section, laid out flat, is itself followed by its subsections. */
  lemma MainLaidOut(flat: seq<Section>, i: nat)
    requires FlatShape(flat) && i < |flat|
    ensures var w := WithSubsections(flat, i);
            [w.(subsections := [])] + w.subsections == flat[i..NextMainFrom(flat, i + 1)]
  {
    SubsectionsAreBetween(flat, i);
    assert flat[i].subsections == [];
    SliceCons(flat, i, NextMainFrom(flat, i + 1));
  }

  lemma SnocLast<T>(s: seq<T>)
    requires s != []
    ensures s == s[..|s| - 1] + [s[|s| - 1]]
  {
  }

  lemma SliceCons<T>(s: seq<T>, i: nat, n: nat)
    requires i < n <= |s|
    ensures s[i..n] == [s[i]] + s[i + 1..n]
  {
  }

  lemma SliceSplit<T>(s: seq<T>, i: nat, n: nat)
    requires i <= n <= |s|
    ensures s[i..] == s[i..n] + s[n..]
  {
  }

  /** One main section laid out flat, followed by the rest. */
  lemma FlattenMainStep(flat: seq<Section>, i: nat)
    requires FlatShape(flat) && i < |flat| && flat[i].level == 1
    requires Flatten(MainsFrom(flat, NextMainFrom(flat, i + 1))) == flat[NextMainFrom(flat, i + 1)..]
    ensures Flatten(MainsFrom(flat, i)) == flat[i..]
  {
    var n := NextMainFrom(flat, i + 1);
    var w := WithSubsections(flat, i);
    var rest := MainsFrom(flat, n);
    assert MainsFrom(flat, i) == [w] + rest by {
      MainsSkipSubsections(flat, i + 1, n);
    }
    FlattenCons(w, rest);
    MainLaidOut(flat, i);
    SliceSplit(flat, i, n);
  }

  lemma {:induction false} FlattenFrom(flat: seq<Section>, i: nat)
    requires FlatShape(flat) && i <= |flat|
    ensures Flatten(MainsFrom(flat, i)) == flat[NextMainFrom(flat, i)..]
    decreases |flat| - i
  {
    if i < |flat| {
      if flat[i].level == 1 {
        var n := NextMainFrom(flat, i + 1);
        FlattenFrom(flat, n);
        assert NextMainFrom(flat, n) == n;
        FlattenMainStep(flat, i);
      } else {
        FlattenFrom(flat, i + 1);
        assert MainsFrom(flat, i) == MainsFrom(flat, i + 1);
      }
    }
  }

  /**
   * The hierarchy partitions the flat list: laid back out, it is exactly the flat list from its first
   * level-1 section on. So every level-2 section after that belongs to exactly one main section — the
   * nearest level-1 section before it — order is kept, and the level-2 sections before the first level-1
   * section (and only they) are dropped.
   */
  lemma HierarchyPartition(flat: seq<Section>)
    requires FlatShape(flat)
    ensures Flatten(Hierarchy(flat)) == flat[NextMainFrom(flat, 0)..]
  {
    FlattenFrom(flat, 0);
  }

  /** The level-1 sections of the flat list, in order, without their subsections. */
  function Level1From(flat: seq<Section>, i: nat): seq<Section>
    requires i <= |flat|
    decreases |flat| - i
  {
    if i == |flat| then []
    else (if flat[i].level == 1 then [flat[i]] else []) + Level1From(flat, i + 1)
  }

  function Unnest(mains: seq<Section>): seq<Section> {
    if mains == [] then [] else [mains[0].(subsections := [])] + Unnest(mains[1..])
  }

  lemma UnnestCons(m: Section, ms: seq<Section>)
    ensures Unnest([m] + ms) == [m.(subsections := [])] + Unnest(ms)
  {
    assert ([m] + ms)[1..] == ms;
  }

  lemma {:induction false} UnnestFrom(flat: seq<Section>, i: nat)
    requires FlatShape(flat) && i <= |flat|
    ensures Unnest(MainsFrom(flat, i)) == Level1From(flat, i)
    decreases |flat| - i
  {
    if i < |flat| {
      UnnestFrom(flat, i + 1);
      if flat[i].level == 1 {
        var w := WithSubsections(flat, i);
        assert w.(subsections := []) == flat[i];
        UnnestCons(w, MainsFrom(flat, i + 1));
      } else {
        assert MainsFrom(flat, i) == MainsFrom(flat, i + 1);
        assert Level1From(flat, i) == Level1From(flat, i + 1);
      }
    }
  }

  /**
   * The result is exactly the level-1 sections in document order, and every subsection of the result
   * is a level-2 section with no subsections of its own.
   */
  lemma HierarchyMains(flat: seq<Section>)
    requires FlatShape(flat)
    ensures Unnest(Hierarchy(flat)) == Level1From(flat, 0)
    ensures forall k :: 0 <= k < |Hierarchy(flat)| ==>
              forall j :: 0 <= j < |Hierarchy(flat)[k].subsections| ==>
                Hierarchy(flat)[k].subsections[j].level == 2
                && Hierarchy(flat)[k].subsections[j].subsections == []
  {
    UnnestFrom(flat, 0);
    HierarchySubsections(flat, 0);
  }

  lemma {:induction false} Level2Members(ss: seq<Section>, j: nat)
    requires j < |Level2(ss)|
    ensures Level2(ss)[j] in ss
  {
    var init := ss[..|ss| - 1];
    if j < |Level2(init)| {
      Level2Members(init, j);
      assert (Level2(init) + (if ss[|ss| - 1].level == 2 then [ss[|ss| - 1]] else []))[j] == Level2(init)[j];
    }
  }

  /** `m` is the level-1 section at position `p`, holding every section from `p + 1` up to the next level-1 one. */
  predicate IsMainAt(flat: seq<Section>, p: nat, m: Section) {
    p < |flat| && flat[p].level == 1 && m == flat[p].(subsections := flat[p + 1..NextMainFrom(flat, p + 1)])
  }

  /** The positions of the level-1 sections at or after `i`, in increasing order. */
  function MainPositions(flat: seq<Section>, i: nat): (r: seq<nat>)
    requires i <= |flat|
    ensures forall k :: 0 <= k < |r| ==> i <= r[k] < |flat| && flat[r[k]].level == 1
    decreases |flat| - i
  {
    if i == |flat| then [] else (if flat[i].level == 1 then [i] else []) + MainPositions(flat, i + 1)
  }

  /** The k-th entry of the second pass from `i` on is the level-1 section at the k-th such position, laid out by `IsMainAt`. */
  lemma {:induction false} MainsAreBetween(flat: seq<Section>, i: nat)
    requires FlatShape(flat) && i <= |flat|
    ensures |MainsFrom(flat, i)| == |MainPositions(flat, i)|
    ensures forall k :: 0 <= k < |MainsFrom(flat, i)| ==> IsMainAt(flat, MainPositions(flat, i)[k], MainsFrom(flat, i)[k])
    decreases |flat| - i
  {
    if i < |flat| {
      MainsAreBetween(flat, i + 1);
      MainsStep(flat, i, MainsFrom(flat, i + 1), MainPositions(flat, i + 1));
    }
  }

  /** The step of `MainsAreBetween`: what holds from `i + 1` on holds from `i` on. */
  lemma MainsStep(flat: seq<Section>, i: nat, rest: seq<Section>, rps: seq<nat>)
    requires FlatShape(flat) && i < |flat|
    requires rest == MainsFrom(flat, i + 1) && rps == MainPositions(flat, i + 1) && |rest| == |rps|
    requires forall k :: 0 <= k < |rest| ==> IsMainAt(flat, rps[k], rest[k])
    ensures |MainsFrom(flat, i)| == |MainPositions(flat, i)|
    ensures forall k :: 0 <= k < |MainsFrom(flat, i)| ==> IsMainAt(flat, MainPositions(flat, i)[k], MainsFrom(flat, i)[k])
  {
    var ms, ps := MainsFrom(flat, i), MainPositions(flat, i);
    if flat[i].level == 1 {
      SubsectionsAreBetween(flat, i);
      assert ms == [WithSubsections(flat, i)] + rest;
      assert ps == [i] + rps;
      assert IsMainAt(flat, i, ms[0]);
      forall k | 1 <= k < |ms| ensures IsMainAt(flat, ps[k], ms[k]) {
        assert ms[k] == rest[k - 1] && ps[k] == rps[k - 1];
      }
    } else {
      assert ms == rest;
      assert ps == rps;
    }
  }

  /**
   * The k-th entry of the second pass from `i` on is the k-th level-1 section of the flat list, with
   * exactly the sections between it and the next level-1 section as subsections; these are level-2
   * sections with no subsections of their own.
   */
  lemma {:induction false} HierarchySubsections(flat: seq<Section>, i: nat)
    requires FlatShape(flat) && i <= |flat|
    ensures |MainsFrom(flat, i)| == |MainPositions(flat, i)|
    ensures forall k :: 0 <= k < |MainsFrom(flat, i)| ==> IsMainAt(flat, MainPositions(flat, i)[k], MainsFrom(flat, i)[k])
    ensures forall k :: 0 <= k < |MainsFrom(flat, i)| ==>
              forall j :: 0 <= j < |MainsFrom(flat, i)[k].subsections| ==>
                MainsFrom(flat, i)[k].subsections[j].level == 2
                && MainsFrom(flat, i)[k].subsections[j].subsections == []
    decreases |flat| - i
  {
    MainsAreBetween(flat, i);
    if i < |flat| {
      HierarchySubsections(flat, i + 1);
      if flat[i].level == 1 {
        var subs := WithSubsections(flat, i).subsections;
        var range := flat[i + 1..NextMainFrom(flat, i + 1)];
        forall j | 0 <= j < |subs| ensures subs[j].subsections == [] {
          Level2Members(range, j);
        }
      }
    }
  }

  // ---------------------------------------------------------------------------------------------
  // Worked examples.

  /** The segments of a small document: each heading line with the line that follows it. */
  lemma ExampleSegments(lines: seq<string>)
    requires lines == ["# Intro", "Hello", "## Details", "More text", "# Next", "Foo"]
    ensures Segments(lines) ==
              [Segment("# Intro", ["Hello"]), Segment("## Details", ["More text"]), Segment("# Next", ["Foo"])]
  {
    var s0 := Segment("# Intro", ["Hello"]);
    var s1 := Segment("## Details", ["More text"]);
    var s2 := Segment("# Next", ["Foo"]);
    var segs := [s0, s1, s2];
    assert AllWellFormed(segs) by {
      assert WellFormed(s0) && WellFormed(s1) && WellFormed(s2);
    }
    assert Unsegment(segs) == lines by {
      UnsegmentSnoc([], s0);
      UnsegmentSnoc([s0], s1);
      UnsegmentSnoc([s0, s1], s2);
      assert [s0] == [] + [s0] && [s0, s1] == [s0] + [s1] && segs == [s0, s1] + [s2];
    }
    SegmentsUnique(lines, [], segs);
  }

  /** The second pass on the sections of that document: the "##" section is attached to the "#" section before it. */
  lemma ExampleHierarchy()
    ensures Hierarchy([Section("Intro", 1, "Hello", []), Section("Details", 2, "More text", []), Section("Next", 1, "Foo", [])]) ==
              [Section("Intro", 1, "Hello", [Section("Details", 2, "More text", [])]), Section("Next", 1, "Foo", [])]
  {
    var a, b, c := Section("Intro", 1, "Hello", []), Section("Details", 2, "More text", []), Section("Next", 1, "Foo", []);
    var flat := [a, b, c];
    assert NextMainFrom(flat, 1) == 2;
    assert flat[1..2] == [b] && Level2([b]) == [b];
    assert MainsFrom(flat, 2) == [c] + MainsFrom(flat, 3);
    assert flat[3..3] == [];
  }

  /** A "##" section before any "#" section is dropped from the outline. */
  lemma ExampleOrphanDropped()
    ensures Hierarchy([Section("Orphan", 2, "text", []), Section("Main", 1, "body", [])]) ==
              [Section("Main", 1, "body", [])]
  {
    var flat := [Section("Orphan", 2, "text", []), Section("Main", 1, "body", [])];
    assert MainsFrom(flat, 0) == MainsFrom(flat, 1);
    assert flat[2..2] == [];
  }

  // ---------------------------------------------------------------------------------------------
  // The whole service.

  /** What the service returns: the markdown as generated, and the table of contents. */
  datatype Documentation = Documentation(content: string, sections: seq<Section>)

  /** The splitting, both passes and the shaping of the result, as `processDocument` runs them on the generated text. */
  method BuildDocumentation(content: string) returns (doc: Documentation)
    ensures doc.content == content
    ensures doc.sections == Hierarchy(FlatSections(Split(content, '\n')))
  {
    var lines := Split(content, '\n');
    var flat := ExtractFlatSections(lines);
    var mains := Organize(flat);
    doc := Documentation(content, mains);
  }

  /**
   * End to end: the table of contents lists the kept level-1 sections in document order, and laid back
   * out it is the flat list from its first level-1 section on.
   */
  lemma OutlineOfContent(content: string)
    ensures var flat := FlatSections(Split(content, '\n'));
            && Unnest(Hierarchy(flat)) == Level1From(flat, 0)
            && Flatten(Hierarchy(flat)) == flat[NextMainFrom(flat, 0)..]
  {
    var flat := FlatSections(Split(content, '\n'));
    FlatSectionsShape(Split(content, '\n'));
    HierarchyMains(flat);
    HierarchyPartition(flat);
  }

  /** The file the user picked: not a `File` at all, or a file with its size in bytes and MIME type. */
  datatype Upload = NotAFile | File(name: string, size: nat, mimeType: string)

  const MaxUploadSize: nat := 10 * 1024 * 1024

  const AllowedTypes: seq<string> := [
    "application/pdf",
    "text/plain",
    "application/msword",
    "application/vnd.openxmlformats-officedocument.wordprocessingml.document"
  ]

  /** The checks made before any request, in the source's order: the first failing one names the error. */
  function UploadError(file: Upload, hasApiKey: bool): (r: Option<string>)
    ensures r == None <==> file.File? && hasApiKey && file.size <= MaxUploadSize && file.mimeType in AllowedTypes
    ensures file.NotAFile? ==> r == Some("Invalid file provided")
    ensures file.File? && !hasApiKey ==> r == Some("API key is missing")
    ensures file.File? && hasApiKey && file.size > MaxUploadSize ==> r == Some("File size must be less than 10MB")
    ensures file.File? && hasApiKey && file.size <= MaxUploadSize && file.mimeType !in AllowedTypes ==>
              r == Some("Invalid file type. Please upload a PDF, TXT, DOC, or DOCX file.")
  {
    if file.NotAFile? then Some("Invalid file provided")
    else if !hasApiKey then Some("API key is missing")
    else if file.size > MaxUploadSize then Some("File size must be less than 10MB")
    else if file.mimeType !in AllowedTypes then Some("Invalid file type. Please upload a PDF, TXT, DOC, or DOCX file.")
    else None
  }

  /** What the generative API answered to the upload request. */
  datatype ApiResponse = ApiResponse(ok: bool, status: nat, body: string)

  /**
   * What `processDocument` makes of the decoded reply (`parsed`, or the decoding error): a falsy reply or a
   * falsy `content` is an invalid response, a `content` that is not text has no `split`, and a text is
   * built into the documentation.
   */
  function DocumentOfReply(parsed: Result<Json, string>): (r: Result<Documentation, string>)
    ensures parsed.Failure? ==> r == Failure(parsed.error)
    ensures r.Success? ==>
              && parsed.Success? && parsed.value.JObject? && "content" in parsed.value.fields
              && parsed.value.fields["content"] == JString(r.value.content)
              && r.value.content != ""
              && r.value.sections == Hierarchy(FlatSections(Split(r.value.content, '\n')))
  {
    if parsed.Failure? then Failure(parsed.error)
    else
      var data := parsed.value;
      if !Truthy(Some(data)) then Failure("Invalid response from API")
      else
        var content := Member(data, "content").value;
        if !Truthy(content) then Failure("Invalid response from API")
        else if !content.value.JString? then Failure("content.split is not a function")
        else Success(Documentation(content.value.s, Hierarchy(FlatSections(Split(content.value.s, '\n')))))
  }

  /** A falsy reply, or a reply whose `content` is falsy, and nothing else, is an invalid response. */
  lemma InvalidReplyIff(data: Json)
    ensures !Truthy(Some(data)) || !Truthy(Member(data, "content").value)
            <==> DocumentOfReply(Success(data)) == Failure("Invalid response from API")
  {
  }

  /** A truthy `content` that is not text fails where the text is split. */
  lemma ContentNotText(data: Json)
    requires Truthy(Some(data)) && Truthy(Member(data, "content").value)
    requires !Member(data, "content").value.value.JString?
    ensures DocumentOfReply(Success(data)) == Failure("content.split is not a function")
  {
  }

  /** A reply whose `content` is a non-empty text is built into the documentation of that text. */
  lemma TextContentBuilt(fields: map<string, Json>, s: string)
    requires "content" in fields && fields["content"] == JString(s) && s != ""
    ensures DocumentOfReply(Success(JObject(fields))) == Success(Documentation(s, Hierarchy(FlatSections(Split(s, '\n')))))
  {
  }

  /**
   * `processDocument`: checks the upload, sends it (`send` stands for the request), checks the answer,
   * decodes it (`decode` stands for `JSON.parse`) and builds the documentation from its `content`.
   */
  method ProcessDocument(file: Upload, hasApiKey: bool, send: Upload -> ApiResponse,
                         decode: string -> Result<Json, string>)
    returns (r: Result<Documentation, string>)
    ensures UploadError(file, hasApiKey).Some? ==> r == Failure(UploadError(file, hasApiKey).value)
    ensures UploadError(file, hasApiKey).None? && !send(file).ok ==>
              r == Failure("Failed to process document: " + NatToString(send(file).status) + " - " + send(file).body)
    ensures UploadError(file, hasApiKey).None? && send(file).ok ==> r == DocumentOfReply(decode(send(file).body))
    ensures r.Success? ==>
              && UploadError(file, hasApiKey).None?
              && send(file).ok
              && decode(send(file).body).Success?
              && decode(send(file).body).value.JObject?
              && "content" in decode(send(file).body).value.fields
              && decode(send(file).body).value.fields["content"] == JString(r.value.content)
              && r.value.content != ""
              && r.value.sections == Hierarchy(FlatSections(Split(r.value.content, '\n')))
  {
    var err := UploadError(file, hasApiKey);
    if err.Some? {
      return Failure(err.value);
    }
    var response := send(file);
    if !response.ok {
      return Failure("Failed to process document: " + NatToString(response.status) + " - " + response.body);
    }
    var parsed := decode(response.body);
    if parsed.Failure? {
      return Failure(parsed.error);
    }
    var data := parsed.value;
    if !Truthy(Some(data)) {
      return Failure("Invalid response from API");
    }
    var content := Member(data, "content").value;
    if !Truthy(content) {
      return Failure("Invalid response from API");
    }
    if !content.value.JString? {
      return Failure("content.split is not a function");
    }
    var doc := BuildDocumentation(content.value.s);
    return Success(doc);
  }

  /** A file over the size limit or of another type is refused whatever the API would have answered. */
  lemma RejectedBeforeRequest(file: Upload, hasApiKey: bool)
    requires file.File? && hasApiKey
    requires file.size > MaxUploadSize || file.mimeType !in AllowedTypes
    ensures UploadError(file, hasApiKey).Some?
    ensures file.size > MaxUploadSize ==> UploadError(file, hasApiKey) == Some("File size must be less than 10MB")
  {
  }
}
