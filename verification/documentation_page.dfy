/**
 * The documentation page: the line search over the generated markdown and the anchor ids given to
 * rendered `h1`, `h2` and `h3` headings.
 */
module DocumentationPage {
  import opened Wrappers
  import opened Text
  import opened DocumentProcessing
  import opened TableOfContents

  /** A line matches when its lower-cased form contains the lower-cased query. */
  predicate Matches(line: string, query: string) {
    Contains(Lower(line), Lower(query))
  }

  /** `lines.filter(line => line.toLowerCase().includes(lowerCaseQuery))`. */
  function FilterLines(lines: seq<string>, query: string): (r: seq<string>)
    ensures |r| <= |lines|
    ensures forall k :: 0 <= k < |r| ==> Matches(r[k], query)
  {
    if lines == [] then []
    else (if Matches(lines[0], query) then [lines[0]] else []) + FilterLines(lines[1..], query)
  }

  /**
   * `handleSearch(query)`: with a non-empty query and non-empty content, the lines of the content that
   * match, joined with newlines; otherwise the whole content, or the empty text when there is none.
   */
  function HandleSearch(query: string, content: Option<string>): (r: string)
  {
    if query != "" && content.Some? && content.value != "" then
      Join(FilterLines(Split(content.value, '\n'), query), "\n")
    else if content.Some? then content.value
    else ""
  }

  /** `xs` is obtained from `ys` by deleting elements, without reordering. */
  predicate IsSubsequence<T(==)>(xs: seq<T>, ys: seq<T>)
    decreases |ys|
  {
    xs == [] || (ys != [] && ((xs[0] == ys[0] && IsSubsequence(xs[1..], ys[1..])) || IsSubsequence(xs, ys[1..])))
  }

  /** Filtering keeps a line exactly when it is one of the input lines and matches. */
  lemma {:induction false} FilterMembership(lines: seq<string>, query: string, line: string)
    ensures line in FilterLines(lines, query) <==> line in lines && Matches(line, query)
    decreases |lines|
  {
    if lines != [] {
      FilterMembership(lines[1..], query, line);
      assert lines == [lines[0]] + lines[1..];
    }
  }

  /** Filtering distributes over concatenation: the kept lines stay in their original order. */
  lemma {:induction false} FilterAppend(a: seq<string>, b: seq<string>, query: string)
    ensures FilterLines(a + b, query) == FilterLines(a, query) + FilterLines(b, query)
    decreases |a|
  {
    if a == [] {
      assert a + b == b;
    } else {
      assert (a + b)[0] == a[0];
      assert (a + b)[1..] == a[1..] + b;
      FilterAppend(a[1..], b, query);
    }
  }

  /** The filtered lines are a subsequence of the input lines. */
  lemma {:induction false} FilterIsSubsequence(lines: seq<string>, query: string)
    ensures IsSubsequence(FilterLines(lines, query), lines)
    decreases |lines|
  {
    if lines != [] {
      var r := FilterLines(lines, query);
      FilterIsSubsequence(lines[1..], query);
      if Matches(lines[0], query) {
        assert r[0] == lines[0] && r[1..] == FilterLines(lines[1..], query);
      } else {
        assert r == FilterLines(lines[1..], query);
      }
    }
  }

  /** Lines that all match are kept as they are. */
  lemma {:induction false} FilterKeepsMatches(lines: seq<string>, query: string)
    requires forall k :: 0 <= k < |lines| ==> Matches(lines[k], query)
    ensures FilterLines(lines, query) == lines
    decreases |lines|
  {
    if lines != [] {
      FilterKeepsMatches(lines[1..], query);
      assert lines == [lines[0]] + lines[1..];
    }
  }

  /** An empty query shows the whole content, or nothing when there is none. */
  lemma EmptyQueryShowsAll(content: Option<string>)
    ensures HandleSearch("", content) == (if content.Some? then content.value else "")
  {
  }

  /**
   * With a non-empty query, the lines of the result are exactly the matching lines of the content, in
   * order; when none match (or the content is empty) the result is the empty text.
   */
  lemma SearchResultLines(query: string, content: string)
    requires query != ""
    ensures var matching := FilterLines(Split(content, '\n'), query);
            var r := HandleSearch(query, Some(content));
            && (matching == [] ==> r == "")
            && (matching != [] ==> Split(r, '\n') == matching)
  {
    var matching := FilterLines(Split(content, '\n'), query);
    if content == "" {
      assert Split(content, '\n') == [""];
    } else if matching != [] {
      FilterIsSubsequence(Split(content, '\n'), query);
      forall k | 0 <= k < |matching|
        ensures '\n' !in matching[k]
      {
        FilterMembership(Split(content, '\n'), query, matching[k]);
      }
      SplitJoin(matching, '\n');
    }
  }

  /** Every line of the filtered text is an unchanged line of the content. */
  lemma SearchLinesComeFromContent(query: string, content: string, line: string)
    requires query != ""
    requires FilterLines(Split(content, '\n'), query) != []
    requires line in Split(HandleSearch(query, Some(content)), '\n')
    ensures line in Split(content, '\n') && Matches(line, query)
  {
    SearchResultLines(query, content);
    FilterMembership(Split(content, '\n'), query, line);
  }

  /** Searching the search result again with the same query changes nothing. */
  lemma SearchIdempotent(query: string, content: string)
    requires query != ""
    ensures var r := HandleSearch(query, Some(content));
            HandleSearch(query, Some(r)) == r
  {
    var r := HandleSearch(query, Some(content));
    var matching := FilterLines(Split(content, '\n'), query);
    SearchResultLines(query, content);
    if matching != [] && r != "" {
      FilterKeepsMatches(matching, query);
    }
  }

  /** The id of a rendered `h1`, `h2` or `h3` heading: the slug of its text. */
  function HeadingId(text: string): (id: string)
    ensures SlugShaped(id)
  {
    SlugShape(text);
    Slug(text)
  }

  /** A table-of-contents entry links to the heading with the same title. */
  lemma TocLinksReachHeadings(section: Section, level: nat, expanded: set<string>)
    ensures RenderSectionLink(section, level, expanded).anchor == HeadingId(section.title)
  {
  }
}
