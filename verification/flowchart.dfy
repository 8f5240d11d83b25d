/**
 * The flowchart view: cutting the documentation into sections at markdown headings of levels 1 to 3,
 * building the overview graph (one main node linked to one node per further section), and shortening
 * node labels of generated graphs.
 */
module Flowchart {
  import opened Wrappers
  import opened Text
  import CodeAssist

  // ---------------------------------------------------------------------------------------------
  // Cutting the text at headings: `content.split(/^#{1,3}\s+/m)`.

  /** The length of the run of `#` starting at `i`. */
  function HashRun(s: string, i: nat): (n: nat)
    requires i <= |s|
    ensures i + n <= |s|
    decreases |s| - i
  {
    if i < |s| && s[i] == '#' then 1 + HashRun(s, i + 1) else 0
  }

  lemma {:induction false} HashRunSpec(s: string, i: nat)
    requires i <= |s|
    ensures forall k :: i <= k < i + HashRun(s, i) ==> s[k] == '#'
    decreases |s| - i
  {
    if i < |s| && s[i] == '#' {
      HashRunSpec(s, i + 1);
    }
  }

  /** The length of the run of white space starting at `i`. */
  function SpaceRun(s: string, i: nat): (n: nat)
    requires i <= |s|
    ensures i + n <= |s|
    decreases |s| - i
  {
    if i < |s| && IsWhitespace(s[i]) then 1 + SpaceRun(s, i + 1) else 0
  }

  lemma {:induction false} SpaceRunSpec(s: string, i: nat)
    requires i <= |s|
    ensures forall k :: i <= k < i + SpaceRun(s, i) ==> IsWhitespace(s[k])
    decreases |s| - i
  {
    if i < |s| && IsWhitespace(s[i]) {
      SpaceRunSpec(s, i + 1);
    }
  }

  /** Position `q` is at the start of a line: the start of the text, or just after a line terminator. */
  predicate AtLineStart(s: string, q: nat)
    requires q <= |s|
  {
    q == 0 || IsLineTerminator(s[q - 1])
  }

  /**
   * The length of the heading marker matched at `q`, or 0 when there is none: at a line start, one to
   * three `#` (a fourth `#` defeats the match, since `\s` cannot match it) and then all the white space
   * that follows, line terminators included.
   */
  function MarkerLength(s: string, q: nat): (n: nat)
    requires q <= |s|
    ensures q + n <= |s|
  {
    var h := HashRun(s, q);
    if AtLineStart(s, q) && 1 <= h <= 3 && q + h < |s| && IsWhitespace(s[q + h]) then h + SpaceRun(s, q + h)
    else 0
  }

  /** The pieces of a split and the markers cut out between them. */
  datatype Cut = Cut(pieces: seq<string>, markers: seq<string>)

  /** Splitting `s[p..]`, scanning for markers from `q` on, as `split` does. */
  function CutFrom(s: string, p: nat, q: nat): (r: Cut)
    requires p <= q <= |s|
    ensures |r.pieces| == |r.markers| + 1
    decreases |s| - q
  {
    if q == |s| then Cut([s[p..]], [])
    else
      var n := MarkerLength(s, q);
      if n > 0 then
        var rest := CutFrom(s, q + n, q + n);
        Cut([s[p..q]] + rest.pieces, [s[q..q + n]] + rest.markers)
      else CutFrom(s, p, q + 1)
  }

  /** The pieces `content.split(/^#{1,3}\s+/m)` returns. */
  function Pieces(s: string): (r: seq<string>)
    ensures |r| >= 1
  {
    CutFrom(s, 0, 0).pieces
  }

  /** `pieces[0] + markers[0] + pieces[1] + ... + pieces[last]`. */
  function Interleave(pieces: seq<string>, markers: seq<string>): string
    requires |pieces| == |markers| + 1
  {
    if markers == [] then pieces[0] else pieces[0] + markers[0] + Interleave(pieces[1..], markers[1..])
  }

  /** A heading marker: one to three `#`, then white space only, at least one character of it. */
  predicate IsMarker(m: string) {
    var h := HashRun(m, 0);
    && 1 <= h <= 3 && h < |m|
    && forall i :: h <= i < |m| ==> IsWhitespace(m[i])
  }

  /** Inside `s[q..q + n]`, a run of `#` that ends before `n` is the same run as in `s`. */
  lemma {:induction false} HashRunSlice(s: string, q: nat, n: nat, i: nat)
    requires q + n <= |s| && i <= n && i + HashRun(s, q + i) < n
    ensures HashRun(s[q..q + n], i) == HashRun(s, q + i)
    decreases n - i
  {
    var m := s[q..q + n];
    assert m[i] == s[q + i];
    if s[q + i] == '#' {
      HashRunSlice(s, q, n, i + 1);
    }
  }

  /** What `MarkerLength` matches is a heading marker. */
  lemma MarkerShape(s: string, q: nat)
    requires q <= |s| && MarkerLength(s, q) > 0
    ensures IsMarker(s[q..q + MarkerLength(s, q)])
  {
    var n := MarkerLength(s, q);
    var m := s[q..q + n];
    var h := HashRun(s, q);
    HashRunSlice(s, q, n, 0);
    SpaceRunSpec(s, q + h);
    assert forall i :: h <= i < |m| ==> m[i] == s[q + i];
  }

  /** The first position from `q` on where a heading marker matches, or the end of the text. */
  function NextMarker(s: string, q: nat): (e: nat)
    requires q <= |s|
    ensures q <= e <= |s|
    ensures e < |s| ==> MarkerLength(s, e) > 0
    ensures forall k :: q <= k < e ==> MarkerLength(s, k) == 0
    decreases |s| - q
  {
    if q == |s| || MarkerLength(s, q) > 0 then q else NextMarker(s, q + 1)
  }

  /**
   * `c` is a split of `s[p..]` whose first cut is at `e`: its first piece is `s[p..e]`; at the end of
   * the text nothing is cut, and otherwise the marker matched at `e` is the first marker and the rest
   * is the split of what follows that marker.
   */
  predicate FirstCutAt(s: string, p: nat, e: nat, c: Cut)
    requires p <= e <= |s|
  {
    && c.pieces != [] && c.pieces[0] == s[p..e]
    && (e == |s| ==> c.markers == [])
    && (e < |s| ==>
          var n := MarkerLength(s, e);
          var rest := CutFrom(s, e + n, e + n);
          c.pieces == [s[p..e]] + rest.pieces && c.markers == [s[e..e + n]] + rest.markers)
  }

  /**
   * The split cuts at the first marker and nowhere before it: the first piece runs up to the first
   * position from `q` on where a marker matches (or to the end), the text matched there is the first
   * marker, and the remaining pieces and markers are the split of what follows that marker.
   */
  lemma {:induction false} CutAtFirstMarker(s: string, p: nat, q: nat)
    requires p <= q <= |s|
    ensures FirstCutAt(s, p, NextMarker(s, q), CutFrom(s, p, q))
    decreases |s| - q
  {
    if q == |s| {
      assert NextMarker(s, q) == q;
      CutAtEnd(s, p);
    } else if MarkerLength(s, q) > 0 {
      assert NextMarker(s, q) == q;
      CutAtMarker(s, p, q, MarkerLength(s, q));
    } else {
      var e, c := NextMarker(s, q + 1), CutFrom(s, p, q + 1);
      CutAtFirstMarker(s, p, q + 1);
      assert NextMarker(s, q) == e;
      CutSkips(s, p, q);
    }
  }

  /** At the end of the text the rest is one piece and nothing is cut. */
  lemma CutAtEnd(s: string, p: nat)
    requires p <= |s|
    ensures FirstCutAt(s, p, |s|, CutFrom(s, p, |s|))
  {
    assert s[p..] == s[p..|s|];
  }

  /** Where a marker of length `n` matches, the piece ends and the marker is cut out. */
  lemma CutAtMarker(s: string, p: nat, q: nat, n: nat)
    requires p <= q < |s| && n == MarkerLength(s, q) && n > 0
    ensures FirstCutAt(s, p, q, CutFrom(s, p, q))
    ensures var c, rest := CutFrom(s, p, q), CutFrom(s, q + n, q + n);
            c.pieces == [s[p..q]] + rest.pieces && c.markers == [s[q..q + n]] + rest.markers
  {
    var rest := CutFrom(s, q + n, q + n);
    assert CutFrom(s, p, q) == Cut([s[p..q]] + rest.pieces, [s[q..q + n]] + rest.markers);
  }

  lemma InterleaveCons(piece: string, marker: string, ps: seq<string>, ms: seq<string>)
    requires |ps| == |ms| + 1
    ensures Interleave([piece] + ps, [marker] + ms) == piece + marker + Interleave(ps, ms)
  {
    assert ([piece] + ps)[1..] == ps;
    assert ([marker] + ms)[1..] == ms;
  }

  lemma SliceThree(s: string, p: nat, q: nat, e: nat)
    requires p <= q <= e <= |s|
    ensures s[p..] == s[p..q] + s[q..e] + s[e..]
  {
  }

  /** The split of `s[p..]` scanned from `q` spells `s[p..]` again when its pieces and markers are interleaved. */
  predicate Reassembles(s: string, p: nat, q: nat)
    requires p <= q <= |s|
  {
    Interleave(CutFrom(s, p, q).pieces, CutFrom(s, p, q).markers) == s[p..]
  }

  /** The pieces and the markers between them spell the text again: nothing is lost or reordered. */
  lemma {:induction false} CutReassembles(s: string, p: nat, q: nat)
    requires p <= q <= |s|
    ensures Interleave(CutFrom(s, p, q).pieces, CutFrom(s, p, q).markers) == s[p..]
  {
    Reassembled(s, p, q);
  }

  lemma {:induction false} Reassembled(s: string, p: nat, q: nat)
    requires p <= q <= |s|
    ensures Reassembles(s, p, q)
    decreases |s| - q
  {
    if q == |s| {
      ReassembleEnd(s, p);
    } else if MarkerLength(s, q) > 0 {
      Reassembled(s, q + MarkerLength(s, q), q + MarkerLength(s, q));
      ReassembleStep(s, p, q, MarkerLength(s, q));
    } else {
      Reassembled(s, p, q + 1);
      ReassembleSkip(s, p, q);
    }
  }

  /** At the end of the text the one remaining piece is the rest of the text. */
  lemma ReassembleEnd(s: string, p: nat)
    requires p <= |s|
    ensures Reassembles(s, p, |s|)
  {
    assert CutFrom(s, p, |s|) == Cut([s[p..]], []);
  }

  /** The step of `Reassembled` where no marker matches. */
  lemma ReassembleSkip(s: string, p: nat, q: nat)
    requires p <= q < |s| && MarkerLength(s, q) == 0
    requires Reassembles(s, p, q + 1)
    ensures Reassembles(s, p, q)
  {
    CutSkips(s, p, q);
  }

  /** Where no marker matches, the scan moves on without cutting. */
  lemma CutSkips(s: string, p: nat, q: nat)
    requires p <= q < |s| && MarkerLength(s, q) == 0
    ensures CutFrom(s, p, q) == CutFrom(s, p, q + 1)
  {
  }

  /** The step of `Reassembled` at a marker: the piece, the marker and the reassembled rest spell `s[p..]`. */
  lemma ReassembleStep(s: string, p: nat, q: nat, n: nat)
    requires p <= q < |s| && n == MarkerLength(s, q) && n > 0
    requires Reassembles(s, q + n, q + n)
    ensures Reassembles(s, p, q)
  {
    var c, rest := CutFrom(s, p, q), CutFrom(s, q + n, q + n);
    CutAtMarker(s, p, q, n);
    InterleaveSlices(s, p, q, q + n, c.pieces, c.markers, rest.pieces, rest.markers);
  }

  /** A piece `t[p..q]` and a marker `t[q..e]` in front of pieces that spell `t[e..]` spell `t[p..]`. */
  lemma InterleaveSlices(t: string, p: nat, q: nat, e: nat,
                         pieces: seq<string>, markers: seq<string>, ps: seq<string>, ms: seq<string>)
    requires p <= q <= e <= |t| && |ps| == |ms| + 1
    requires pieces == [t[p..q]] + ps && markers == [t[q..e]] + ms && Interleave(ps, ms) == t[e..]
    ensures |pieces| == |markers| + 1 && Interleave(pieces, markers) == t[p..]
  {
    InterleaveCons(t[p..q], t[q..e], ps, ms);
    SliceThree(t, p, q, e);
  }

  /** Every piece of text cut out is a heading marker. */
  lemma {:induction false} CutMarkersAreMarkers(s: string, p: nat, q: nat)
    requires p <= q <= |s|
    ensures forall k :: 0 <= k < |CutFrom(s, p, q).markers| ==> IsMarker(CutFrom(s, p, q).markers[k])
    decreases |s| - q
  {
    if q < |s| {
      var n := MarkerLength(s, q);
      if n > 0 {
        CutMarkersAreMarkers(s, q + n, q + n);
        MarkerShape(s, q);
      } else {
        CutMarkersAreMarkers(s, p, q + 1);
      }
    }
  }

  /** Where no marker occurs from `q` on, the rest of the text is one piece. */
  lemma {:induction false} NoMarkerOnePiece(s: string, p: nat, q: nat)
    requires p <= q <= |s|
    requires forall k :: q <= k < |s| ==> MarkerLength(s, k) == 0
    ensures CutFrom(s, p, q).pieces == [s[p..]]
    decreases |s| - q
  {
    if q < |s| {
      NoMarkerOnePiece(s, p, q + 1);
    }
  }

  /**
   * The split of the whole text: its pieces, with the heading markers between them, spell the text;
   * every marker is a heading marker.
   */
  lemma PiecesPartition(s: string)
    ensures Interleave(Pieces(s), CutFrom(s, 0, 0).markers) == s
    ensures forall k :: 0 <= k < |CutFrom(s, 0, 0).markers| ==> IsMarker(CutFrom(s, 0, 0).markers[k])
  {
    CutReassembles(s, 0, 0);
    CutMarkersAreMarkers(s, 0, 0);
    assert s[0..] == s;
  }

  // ---------------------------------------------------------------------------------------------
  // Sections.

  datatype FlowSection = FlowSection(title: string, content: string)

  /** One piece: the trimmed first line of the trimmed piece is the title, the trimmed rest the content. */
  function SectionOfPiece(piece: string): FlowSection {
    var lines := Split(Trim(piece), '\n');
    FlowSection(Trim(lines[0]), Trim(Join(lines[1..], "\n")))
  }

  /** `extractSections(content)`. */
  function ExtractSections(content: Option<string>): (r: seq<FlowSection>)
    ensures content.None? || content.value == "" ==> r == []
  {
    if content.None? || content.value == "" then []
    else
      var pieces := CodeAssist.NonEmpty(Pieces(content.value));
      seq(|pieces|, k requires 0 <= k < |pieces| => SectionOfPiece(pieces[k]))
  }

  /** Trimmed text is its own trim, and a part of one line holds no newline. */
  lemma SectionOfPieceShape(piece: string)
    ensures var sec := SectionOfPiece(piece);
            && Trim(sec.title) == sec.title && '\n' !in sec.title
            && Trim(sec.content) == sec.content
  {
    var lines := Split(Trim(piece), '\n');
    TrimIdempotent(lines[0]);
    TrimIdempotent(Join(lines[1..], "\n"));
    TrimOfLine(lines[0]);
  }

  /** Trimming a line cannot bring in a newline. */
  lemma TrimOfLine(line: string)
    requires '\n' !in line
    ensures '\n' !in Trim(line)
  {
    var t := TrimStart(line);
    TrimStartSpec(line);
    TrimEndSpec(t);
    var title := Trim(line);
    assert forall i :: 0 <= i < |title| ==> title[i] == t[i] && t[i] == line[|line| - |t| + i];
  }

  /** Every extracted section has a trimmed single-line title and trimmed content, one per non-empty piece. */
  lemma ExtractSectionsShape(content: string)
    requires content != ""
    ensures var r := ExtractSections(Some(content));
            && |r| == |CodeAssist.NonEmpty(Pieces(content))|
            && (forall k :: 0 <= k < |r| ==> r[k] == SectionOfPiece(CodeAssist.NonEmpty(Pieces(content))[k]))
            && forall k :: 0 <= k < |r| ==>
                 Trim(r[k].title) == r[k].title && '\n' !in r[k].title && Trim(r[k].content) == r[k].content
  {
    var pieces := CodeAssist.NonEmpty(Pieces(content));
    forall k | 0 <= k < |pieces| {
      SectionOfPieceShape(pieces[k]);
    }
  }

  /** A trimmed piece of one line is all title, with no content. */
  lemma SectionOfOneLine(piece: string)
    requires '\n' !in Trim(piece)
    ensures SectionOfPiece(piece) == FlowSection(Trim(piece), "")
  {
    SplitNoSeparator(Trim(piece), '\n');
    TrimIdempotent(piece);
    assert Trim("") == "";
  }

  /**
   * A trimmed piece of several lines: the title is its text before the first newline, trimmed, and
   * the content is all the text after that newline, trimmed.
   */
  lemma SectionOfLines(piece: string, first: string, others: string)
    requires Trim(piece) == first + "\n" + others && '\n' !in first
    ensures SectionOfPiece(piece) == FlowSection(Trim(first), Trim(others))
  {
    SplitAppend(first, others, '\n');
    SplitNoSeparator(first, '\n');
    JoinSplit(others, '\n');
    var lines := Split(Trim(piece), '\n');
    assert lines == [first] + Split(others, '\n');
    assert lines[1..] == Split(others, '\n');
  }

  /** Non-empty text before the first heading marker becomes the first section, on its own. */
  lemma LeadingTextIsFirstSection(content: string)
    requires 0 < NextMarker(content, 0)
    ensures var r := ExtractSections(Some(content));
            |r| >= 1 && r[0] == SectionOfPiece(content[..NextMarker(content, 0)])
  {
    CutAtFirstMarker(content, 0, 0);
    var pieces := Pieces(content);
    var e := NextMarker(content, 0);
    assert pieces[0] == content[..e] && pieces[0] != "";
    assert CodeAssist.NonEmpty(pieces) == [pieces[0]] + CodeAssist.NonEmpty(pieces[1..]);
  }

  /** Text without any heading marker is a single section, taken from the whole text. */
  lemma PlainTextOneSection(content: string)
    requires content != ""
    requires forall k :: 0 <= k < |content| ==> MarkerLength(content, k) == 0
    ensures ExtractSections(Some(content)) == [SectionOfPiece(content)]
  {
    NoMarkerOnePiece(content, 0, 0);
    assert content[0..] == content;
    assert Pieces(content) == [content];
    assert CodeAssist.NonEmpty([content]) == [content];
  }

  // ---------------------------------------------------------------------------------------------
  // The overview graph.

  datatype Node = Node(id: string, caption: string, kind: string, color: string)
  datatype Edge = Edge(source: string, target: string, caption: string)
  datatype Graph = Graph(nodes: seq<Node>, edges: seq<Edge>)

  /** `title.replace(/\.\.\.$/, '')`: one trailing `...` is removed. */
  function DropEllipsis(title: string): (r: string)
    ensures EndsWith(title, "...") ==> r + "..." == title
    ensures !EndsWith(title, "...") ==> r == title
  {
    if EndsWith(title, "...") then title[..|title| - 3] else title
  }

  function SectionId(i: nat): string {
    "section-" + NatToString(i)
  }

  /** The node of section `i` (from 1). */
  function SectionNode(sections: seq<FlowSection>, i: nat): Node
    requires 1 <= i < |sections|
  {
    Node(SectionId(i), DropEllipsis(sections[i].title), "section", "#FFD6A5")
  }

  /**
   * `generateMainFlowchart` before rendering: no sections is an error; otherwise a main node for the
   * first section and one node per further section, each joined to the main node by one edge.
   */
  function MainFlowchart(sections: seq<FlowSection>): (r: Result<Graph, string>)
    ensures sections == [] <==> r.Failure?
  {
    if |sections| == 0 then Failure("Error generating flowchart. Please try again.")
    else
      var main := Node("main", if sections[0].title != "" then sections[0].title else "Documentation", "main", "#B8E1FF");
      Success(Graph(
        [main] + seq(|sections| - 1, k requires 0 <= k < |sections| - 1 => SectionNode(sections, k + 1)),
        seq(|sections| - 1, k requires 0 <= k < |sections| - 1 => Edge("main", SectionId(k + 1), "contains"))))
  }

  lemma SectionIdsDistinct(i: nat, j: nat)
    requires SectionId(i) == SectionId(j)
    ensures i == j
  {
    var a, b := NatToString(i), NatToString(j);
    assert a == SectionId(i)[8..] && b == SectionId(j)[8..];
    NatToStringInjective(i, j);
  }

  /**
   * For `n` sections the graph has `n` nodes and `n - 1` edges, the `i`-th going from the main node to
   * the node of section `i`, so every further section is linked exactly once. The main node is labelled
   * with the first title, or 'Documentation' when that is empty.
   */
  lemma MainFlowchartShape(sections: seq<FlowSection>)
    requires sections != []
    ensures var g := MainFlowchart(sections).value;
            && |g.nodes| == |sections| && |g.edges| == |sections| - 1
            && g.nodes[0].id == "main"
            && (sections[0].title == "" ==> g.nodes[0].caption == "Documentation")
            && (sections[0].title != "" ==> g.nodes[0].caption == sections[0].title)
            && (forall i :: 1 <= i < |g.nodes| ==> g.nodes[i] == SectionNode(sections, i))
            && forall k :: 0 <= k < |g.edges| ==>
                 g.edges[k].source == "main" && g.edges[k].target == g.nodes[k + 1].id
  {
  }

  /** Node ids are distinct, so each edge names exactly one node. */
  lemma MainFlowchartIdsDistinct(sections: seq<FlowSection>)
    requires sections != []
    ensures var g := MainFlowchart(sections).value;
            forall i, j :: 0 <= i < j < |g.nodes| ==> g.nodes[i].id != g.nodes[j].id
  {
    var g := MainFlowchart(sections).value;
    MainFlowchartShape(sections);
    forall i, j | 0 <= i < j < |g.nodes|
      ensures g.nodes[i].id != g.nodes[j].id
    {
      if i == 0 {
        assert g.nodes[j].id[0] == 's';
      } else if g.nodes[i].id == g.nodes[j].id {
        SectionIdsDistinct(i, j);
      }
    }
  }

  // ---------------------------------------------------------------------------------------------
  // Labels of generated graphs.

  /** Labels longer than 40 characters keep their first 37 and end in `...`. */
  function TruncateLabel(text: string): (r: string)
    ensures |r| <= 40
    ensures |text| <= 40 ==> r == text
    ensures |text| > 40 ==> |r| == 40 && r[..37] == text[..37] && EndsWith(r, "...")
  {
    if |text| > 40 then text[..37] + "..." else text
  }

  /** The label clean-up over all nodes: every other field is kept. */
  function CleanLabels(nodes: seq<Node>): (r: seq<Node>)
    ensures |r| == |nodes|
    ensures forall k :: 0 <= k < |r| ==>
              r[k] == nodes[k].(caption := TruncateLabel(nodes[k].caption)) && |r[k].caption| <= 40
  {
    seq(|nodes|, k requires 0 <= k < |nodes| => nodes[k].(caption := TruncateLabel(nodes[k].caption)))
  }

  /** Cleaning labels twice is cleaning them once. */
  lemma CleanLabelsIdempotent(nodes: seq<Node>)
    ensures CleanLabels(CleanLabels(nodes)) == CleanLabels(nodes)
  {
  }
}
