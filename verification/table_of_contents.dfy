/**
 * The table of contents: the anchor slug of a title, the set of expanded titles and its toggle, and
 * the recursive rendering of section links (only the structure: titles, anchors, levels, whether the
 * toggle button is shown, and which children are listed).
 */
module TableOfContents {
  import opened Wrappers
  import opened Text
  import opened DocumentProcessing

  /** The characters `[a-z0-9]` that the slug keeps. */
  predicate IsSlugChar(c: char) {
    'a' <= c <= 'z' || '0' <= c <= '9'
  }

  /** Drops the leading run of characters outside `[a-z0-9]`. */
  function DropRun(s: string): (r: string)
    ensures |r| <= |s|
    ensures r == [] || IsSlugChar(r[0])
  {
    if s != [] && !IsSlugChar(s[0]) then DropRun(s[1..]) else s
  }

  /** `replace(/[^a-z0-9]+/g, '-')`: every maximal run of other characters becomes one hyphen. */
  function ReplaceRuns(s: string): (r: string)
    ensures forall i :: 0 <= i < |r| ==> IsSlugChar(r[i]) || r[i] == '-'
    ensures r == [] <==> s == []
    ensures r != [] ==> (r[0] == '-' <==> !IsSlugChar(s[0]))
    decreases |s|
  {
    if s == [] then []
    else if IsSlugChar(s[0]) then [s[0]] + ReplaceRuns(s[1..])
    else "-" + ReplaceRuns(DropRun(s[1..]))
  }

  /** The anchor id of a title: `title.toLowerCase().replace(/[^a-z0-9]+/g, '-')`. */
  function Slug(title: string): string {
    ReplaceRuns(Lower(title))
  }

  predicate NoDoubleHyphen(r: string) {
    forall i :: 0 <= i < |r| - 1 ==> !(r[i] == '-' && r[i + 1] == '-')
  }

  predicate SlugShaped(r: string) {
    (forall i :: 0 <= i < |r| ==> IsSlugChar(r[i]) || r[i] == '-') && NoDoubleHyphen(r)
  }

  lemma {:induction false} ReplaceRunsNoDoubleHyphen(s: string)
    ensures NoDoubleHyphen(ReplaceRuns(s))
    decreases |s|
  {
    if s != [] {
      var r := ReplaceRuns(s);
      if IsSlugChar(s[0]) {
        ReplaceRunsNoDoubleHyphen(s[1..]);
        assert forall i :: 1 <= i < |r| ==> r[i] == ReplaceRuns(s[1..])[i - 1];
      } else {
        var t := DropRun(s[1..]);
        ReplaceRunsNoDoubleHyphen(t);
        assert forall i :: 1 <= i < |r| ==> r[i] == ReplaceRuns(t)[i - 1];
      }
    }
  }

  /** A slug holds only `[a-z0-9-]` and never two hyphens in a row. */
  lemma SlugShape(title: string)
    ensures SlugShaped(Slug(title))
  {
    ReplaceRunsNoDoubleHyphen(Lower(title));
  }

  /** The characters of `[a-z0-9]` in a text, in order. */
  function Alnums(s: string): string {
    if s == [] then [] else (if IsSlugChar(s[0]) then [s[0]] else []) + Alnums(s[1..])
  }

  lemma {:induction false} AlnumsDropRun(s: string)
    ensures Alnums(DropRun(s)) == Alnums(s)
    decreases |s|
  {
    if s != [] && !IsSlugChar(s[0]) {
      AlnumsDropRun(s[1..]);
    }
  }

  lemma {:induction false} AlnumsReplaceRuns(s: string)
    ensures Alnums(ReplaceRuns(s)) == Alnums(s)
    decreases |s|
  {
    if s != [] {
      var r := ReplaceRuns(s);
      if IsSlugChar(s[0]) {
        AlnumsReplaceRuns(s[1..]);
        assert r[1..] == ReplaceRuns(s[1..]);
      } else {
        var t := DropRun(s[1..]);
        AlnumsReplaceRuns(t);
        AlnumsDropRun(s[1..]);
        assert r[1..] == ReplaceRuns(t);
      }
    }
  }

  /** The slug keeps every letter and digit of the lower-cased title, in order, and only those besides hyphens. */
  lemma SlugKeepsAlnums(title: string)
    ensures Alnums(Slug(title)) == Alnums(Lower(title))
  {
    AlnumsReplaceRuns(Lower(title));
  }

  lemma {:induction false} ReplaceRunsFixesSlugs(r: string)
    requires SlugShaped(r)
    ensures ReplaceRuns(r) == r
    decreases |r|
  {
    if r != [] {
      var rest := r[1..];
      assert SlugShaped(rest) by {
        assert forall i :: 0 <= i < |rest| ==> rest[i] == r[i + 1];
      }
      if IsSlugChar(r[0]) {
        ReplaceRunsFixesSlugs(rest);
      } else {
        assert rest == [] || rest[0] != '-';
        assert DropRun(rest) == rest;
        ReplaceRunsFixesSlugs(rest);
      }
    }
  }

  lemma {:induction false} LowerFixesSlugs(r: string)
    requires SlugShaped(r)
    ensures Lower(r) == r
  {
    assert forall i :: 0 <= i < |r| ==> LowerChar(r[i]) == r[i];
  }

  /** A slug is its own slug: taking the slug of an anchor changes nothing. */
  lemma SlugIdempotent(title: string)
    ensures Slug(Slug(title)) == Slug(title)
  {
    var r := Slug(title);
    SlugShape(title);
    LowerFixesSlugs(r);
    ReplaceRunsFixesSlugs(r);
  }

  /** A word of letters and digits passes through unchanged. */
  lemma {:induction false} ReplaceRunsWord(w: string, t: string)
    requires forall i :: 0 <= i < |w| ==> IsSlugChar(w[i])
    ensures ReplaceRuns(w + t) == w + ReplaceRuns(t)
    decreases |w|
  {
    if w == [] {
      assert w + t == t;
    } else {
      var s := w + t;
      assert s[0] == w[0] && IsSlugChar(s[0]);
      assert s[1..] == w[1..] + t;
      assert ReplaceRuns(s) == [w[0]] + ReplaceRuns(w[1..] + t);
      ReplaceRunsWord(w[1..], t);
      assert w == [w[0]] + w[1..];
    }
  }

  /** A run of other characters, alone, becomes one hyphen. */
  lemma ReplaceRunsPunctuation(q: string)
    requires q != [] && forall i :: 0 <= i < |q| ==> !IsSlugChar(q[i])
    ensures ReplaceRuns(q) == "-"
  {
    DropRunBeforeWord(q[1..], []);
    assert q[1..] + [] == q[1..];
  }

  /** A run of other characters followed by a word is dropped entirely. */
  lemma {:induction false} DropRunBeforeWord(q: string, w: string)
    requires forall i :: 0 <= i < |q| ==> !IsSlugChar(q[i])
    requires w == [] || IsSlugChar(w[0])
    ensures DropRun(q + w) == w
    decreases |q|
  {
    if q != [] {
      assert (q + w)[1..] == q[1..] + w;
      DropRunBeforeWord(q[1..], w);
    } else {
      assert q + w == w;
    }
  }

  /** A word followed by a run of other characters keeps the word and ends in one hyphen. */
  lemma ReplaceRunsTrailing(w: string, q: string)
    requires forall i :: 0 <= i < |w| ==> IsSlugChar(w[i])
    requires q != [] && forall i :: 0 <= i < |q| ==> !IsSlugChar(q[i])
    ensures ReplaceRuns(w + q) == w + "-"
  {
    ReplaceRunsWord(w, q);
    ReplaceRunsPunctuation(q);
  }

  /** A run of other characters followed by a word becomes one hyphen and the word. */
  lemma ReplaceRunsLeading(q: string, w: string)
    requires q != [] && forall i :: 0 <= i < |q| ==> !IsSlugChar(q[i])
    requires forall i :: 0 <= i < |w| ==> IsSlugChar(w[i])
    ensures ReplaceRuns(q + w) == "-" + w
  {
    var s := q + w;
    assert s[0] == q[0];
    assert s[1..] == q[1..] + w;
    DropRunBeforeWord(q[1..], w);
    ReplaceRunsWord(w, []);
    assert w + [] == w;
  }

  /** Characters that stay (or become) letters and digits once lower-cased. */
  predicate LowersToWord(w: string) {
    forall i :: 0 <= i < |w| ==> IsSlugChar(LowerChar(w[i]))
  }

  /** Characters that are neither letters nor digits, even once lower-cased. */
  predicate Punctuation(p: string) {
    p != [] && forall i :: 0 <= i < |p| ==> !IsSlugChar(LowerChar(p[i]))
  }

  /** Trailing punctuation after a word becomes one trailing hyphen, which is kept. */
  lemma SlugKeepsTrailingHyphen(w: string, p: string)
    requires LowersToWord(w) && Punctuation(p)
    ensures Slug(w + p) == Lower(w) + "-"
  {
    LowerAppend(w, p);
    ReplaceRunsTrailing(Lower(w), Lower(p));
  }

  /** Leading punctuation before a word becomes one leading hyphen, which is kept. */
  lemma SlugKeepsLeadingHyphen(p: string, w: string)
    requires Punctuation(p) && LowersToWord(w)
    ensures Slug(p + w) == "-" + Lower(w)
  {
    LowerAppend(p, w);
    ReplaceRunsLeading(Lower(p), Lower(w));
  }

  // ---------------------------------------------------------------------------------------------
  // The set of expanded titles.

  /** The set after toggling `title`: removed when present, added when absent. */
  function Toggled(expanded: set<string>, title: string): set<string> {
    if title in expanded then expanded - {title} else expanded + {title}
  }

  /** Toggling flips the membership of exactly the given title. */
  lemma ToggleFlipsOnlyTitle(expanded: set<string>, title: string)
    ensures title in Toggled(expanded, title) <==> title !in expanded
    ensures forall other :: other != title ==> (other in Toggled(expanded, title) <==> other in expanded)
  {
  }

  /** Toggling the same title twice restores the set. */
  lemma ToggleTwice(expanded: set<string>, title: string)
    ensures Toggled(Toggled(expanded, title), title) == expanded
  {
  }

  /** The component's expansion state. */
  class ExpansionState {
    var expandedSections: set<string>

    /** `useState(new Set())`: nothing is expanded at first. */
    constructor()
      ensures expandedSections == {}
    {
      expandedSections := {};
    }

    /** `toggleSection`: copies the set, adds or deletes the title, and stores the copy. */
    method ToggleSection(sectionTitle: string)
      modifies this
      ensures expandedSections == Toggled(old(expandedSections), sectionTitle)
    {
      var newExpanded := expandedSections;
      if sectionTitle in newExpanded {
        newExpanded := newExpanded - {sectionTitle};
      } else {
        newExpanded := newExpanded + {sectionTitle};
      }
      expandedSections := newExpanded;
    }
  }

  // ---------------------------------------------------------------------------------------------
  // Rendering.

  /**
   * One rendered entry: the title, its anchor, its nesting level, whether the toggle button is shown and
   * turned, and the entries listed under it.
   */
  datatype Link = Link(title: string, anchor: string, level: nat, hasToggle: bool, rotated: bool, children: seq<Link>)

  /** `renderSectionLink(section, level)` against the current expansion set. */
  function RenderSectionLink(section: Section, level: nat, expanded: set<string>): (link: Link)
    decreases section, 1
  {
    var hasSubsections := |section.subsections| > 0;
    var isExpanded := section.title in expanded;
    Link(section.title, Slug(section.title), level, hasSubsections, isExpanded,
         if hasSubsections && isExpanded then RenderAll(section.subsections, level + 1, expanded) else [])
  }

  /** `sections.map(s => renderSectionLink(s, level))`. */
  function RenderAll(sections: seq<Section>, level: nat, expanded: set<string>): (links: seq<Link>)
    decreases sections, 0
  {
    if sections == [] then []
    else [RenderSectionLink(sections[0], level, expanded)] + RenderAll(sections[1..], level, expanded)
  }

  lemma {:induction false} RenderAllShape(sections: seq<Section>, level: nat, expanded: set<string>)
    ensures |RenderAll(sections, level, expanded)| == |sections|
    ensures forall k :: 0 <= k < |sections| ==>
              RenderAll(sections, level, expanded)[k] == RenderSectionLink(sections[k], level, expanded)
    decreases |sections|
  {
    if sections != [] {
      RenderAllShape(sections[1..], level, expanded);
    }
  }

  /**
   * Children are listed exactly when the section has subsections and its title is expanded; they are
   * then the subsections, in order, rendered one level deeper. The anchor is the slug of the title.
   */
  lemma ChildrenRule(section: Section, level: nat, expanded: set<string>)
    ensures var link := RenderSectionLink(section, level, expanded);
            && link.anchor == Slug(section.title)
            && link.level == level
            && link.hasToggle == (section.subsections != [])
            && (link.children != [] <==> section.subsections != [] && section.title in expanded)
            && (link.children != [] ==>
                  |link.children| == |section.subsections|
                  && forall k :: 0 <= k < |link.children| ==>
                       link.children[k] == RenderSectionLink(section.subsections[k], level + 1, expanded)
                       && link.children[k].level == level + 1)
  {
    RenderAllShape(section.subsections, level + 1, expanded);
  }

  /** Expansion is keyed by title: two sections with the same title are expanded or collapsed together. */
  lemma SameTitleSameExpansion(a: Section, b: Section, level: nat, expanded: set<string>)
    requires a.title == b.title
    ensures RenderSectionLink(a, level, expanded).rotated == RenderSectionLink(b, level, expanded).rotated
    ensures a.subsections != [] && b.subsections != [] ==>
              (RenderSectionLink(a, level, expanded).children != [] <==>
               RenderSectionLink(b, level, expanded).children != [])
  {
    ChildrenRule(a, level, expanded);
    ChildrenRule(b, level, expanded);
  }

  /** The whole component: nothing without documentation, otherwise one top-level entry per main section. */
  function RenderToc(documentation: Option<Documentation>, expanded: set<string>): (r: Option<seq<Link>>)
    ensures documentation.None? <==> r.None?
    ensures r.Some? ==> |r.value| == |documentation.value.sections|
                        && forall k :: 0 <= k < |r.value| ==> r.value[k].level == 0
                                                               && r.value[k].title == documentation.value.sections[k].title
  {
    match documentation
    case None => None
    case Some(doc) =>
      RenderAllShape(doc.sections, 0, expanded);
      Some(RenderAll(doc.sections, 0, expanded))
  }
}
