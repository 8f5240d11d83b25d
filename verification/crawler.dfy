/**
 * Crawling documentation from a site: deriving the sitemap address from what the user entered, and
 * turning the crawler's reply into one documentation text.
 */
module Crawler {
  import opened Wrappers
  import opened Text
  import opened JsValue

  /** `u.replace(/\/$/, '')`: one trailing slash is removed. */
  function DropTrailingSlash(u: string): (r: string)
    ensures EndsWith(u, "/") ==> r + "/" == u
    ensures !EndsWith(u, "/") ==> r == u
  {
    if EndsWith(u, "/") then u[..|u| - 1] else u
  }

  /** The address names a sitemap: its lower-case form ends with `sitemap.xml`. */
  predicate NamesSitemap(url: string) {
    EndsWith(Lower(url), "sitemap.xml")
  }

  /** The sitemap address the crawl is asked for: kept when it already names a sitemap, else derived. */
  function SitemapUrl(url: string): string {
    if NamesSitemap(url) then url else DropTrailingSlash(url) + "/sitemap.xml"
  }

  /** Appending `/sitemap.xml` to any text names a sitemap. */
  lemma AppendedNamesSitemap(x: string)
    ensures NamesSitemap(x + "/sitemap.xml")
  {
    SuffixIsLowerCase();
    SuffixEndsWithSitemap();
    AppendedKeepsSuffix(x, "/sitemap.xml", "sitemap.xml");
  }

  lemma SuffixIsLowerCase()
    ensures Lower("/sitemap.xml") == "/sitemap.xml"
  {
    LowerNoCapitals("/sitemap.xml");
  }

  lemma SuffixEndsWithSitemap()
    ensures EndsWith("/sitemap.xml", "sitemap.xml")
  {
    EndsWithAppend("/", "sitemap.xml");
    assert "/" + "sitemap.xml" == "/sitemap.xml";
  }

  /** Lower-casing keeps the ending of a text appended in lower case. */
  lemma AppendedKeepsSuffix(x: string, t: string, m: string)
    requires Lower(t) == t && EndsWith(t, m)
    ensures EndsWith(Lower(x + t), m)
  {
    LowerAppend(x, t);
    EndsWithExtended(Lower(x), t, m);
  }

  lemma EndsWithExtended(a: string, t: string, m: string)
    requires EndsWith(t, m)
    ensures EndsWith(a + t, m)
  {
    var w := a + t;
    assert w[|w| - |m|..] == t[|t| - |m|..];
  }

  /** Whatever was entered, the derived address names a sitemap. */
  lemma SitemapUrlNamesSitemap(url: string)
    ensures NamesSitemap(SitemapUrl(url))
  {
    if !NamesSitemap(url) {
      AppendedNamesSitemap(DropTrailingSlash(url));
    }
  }

  /** Deriving the address again leaves it as it is. */
  lemma SitemapUrlIdempotent(url: string)
    ensures SitemapUrl(SitemapUrl(url)) == SitemapUrl(url)
  {
    SitemapUrlNamesSitemap(url);
  }

  /** An address that does not name a sitemap loses one trailing slash and gains `/sitemap.xml`. */
  lemma SitemapUrlAppends(url: string)
    requires !NamesSitemap(url)
    ensures EndsWith(url, "/") ==> SitemapUrl(url) == url[..|url| - 1] + "/sitemap.xml"
    ensures !EndsWith(url, "/") ==> SitemapUrl(url) == url + "/sitemap.xml"
  {
  }

  // ---------------------------------------------------------------------------------------------
  // The crawler's reply.

  /** What one crawled page adds: `'\n\n' + (item.content || '')` when it succeeded, nothing otherwise. */
  function Contribution(item: Json): Result<string, string> {
    match Member(item, "success")
    case Failure(e) => Failure(e)
    case Success(success) =>
      if !Truthy(success) then Success("")
      else
        var content := Member(item, "content").value;
        Success("\n\n" + (if Truthy(content) then ToJsString(content.value) else ""))
  }

  /** A left-to-right reduction of pages to text, where the first page `f` fails on stops it. */
  function Reduce(items: seq<Json>, f: Json -> Result<string, string>): Result<string, string> {
    if items == [] then Success("")
    else match f(items[0])
      case Failure(e) => Failure(e)
      case Success(c) =>
        match Reduce(items[1..], f)
        case Failure(e) => Failure(e)
        case Success(rest) => Success(c + rest)
  }

  /** `data.reduce((acc, item) => ..., '')` before trimming; the first page that throws stops it. */
  function Aggregate(items: seq<Json>): Result<string, string> {
    Reduce(items, Contribution)
  }

  /** The page succeeded: `item.success` is truthy. */
  predicate Succeeded(item: Json) {
    item.JObject? && "success" in item.fields && Truthy(Some(item.fields["success"]))
  }

  /** Pages that did not succeed contribute nothing. */
  lemma ContributionOfFailedPage(item: Json)
    requires !item.JNull? && !Succeeded(item)
    ensures Contribution(item) == Success("")
  {
  }

  /** Reducing a concatenation of pages concatenates the reductions. */
  lemma {:induction false} ReduceAppend(a: seq<Json>, b: seq<Json>, f: Json -> Result<string, string>)
    requires Reduce(a, f).Success? && Reduce(b, f).Success?
    ensures Reduce(a + b, f) == Success(Reduce(a, f).value + Reduce(b, f).value)
    decreases |a|
  {
    if a == [] {
      assert a + b == b;
      assert Reduce(a, f).value + Reduce(b, f).value == Reduce(b, f).value;
    } else {
      ReduceAppend(a[1..], b, f);
      assert (a + b)[0] == a[0] && (a + b)[1..] == a[1..] + b;
      var c, a1, b1 := f(a[0]).value, Reduce(a[1..], f).value, Reduce(b, f).value;
      assert c + (a1 + b1) == (c + a1) + b1;
    }
  }

  /** Aggregating a concatenation of pages concatenates the aggregates: pages keep their order. */
  lemma AggregateAppend(a: seq<Json>, b: seq<Json>)
    requires Aggregate(a).Success? && Aggregate(b).Success?
    ensures Aggregate(a + b) == Success(Aggregate(a).value + Aggregate(b).value)
  {
    ReduceAppend(a, b, Contribution);
  }

  /** Text that is all white space stays so when white space is added on either side, and conversely. */
  lemma AllWhitespaceAppend(a: string, b: string)
    ensures AllWhitespace(a + b) <==> AllWhitespace(a) && AllWhitespace(b)
  {
    if AllWhitespace(a + b) {
      forall i | 0 <= i < |a| ensures IsWhitespace(a[i]) {
        assert (a + b)[i] == a[i];
      }
      forall i | 0 <= i < |b| ensures IsWhitespace(b[i]) {
        assert (a + b)[|a| + i] == b[i];
      }
    }
    if AllWhitespace(a) && AllWhitespace(b) {
      forall i | 0 <= i < |a + b| ensures IsWhitespace((a + b)[i]) {
        if i < |a| {
          assert (a + b)[i] == a[i];
        } else {
          assert (a + b)[i] == b[i - |a|];
        }
      }
    }
  }

  /** What a succeeded page brings: its content as text, or the empty text when it has none. */
  function PageText(item: Json): string
    requires Succeeded(item)
  {
    var content := Member(item, "content").value;
    if Truthy(content) then ToJsString(content.value) else ""
  }

  /**
   * The aggregate is blank exactly when every succeeded page brought only white space; when no page is
   * `null`, aggregation succeeds.
   */
  lemma {:induction false} AggregateBlankIff(items: seq<Json>)
    requires forall k :: 0 <= k < |items| ==> !items[k].JNull?
    ensures Aggregate(items).Success?
    ensures AllWhitespace(Aggregate(items).value) <==>
              forall k :: 0 <= k < |items| && Succeeded(items[k]) ==> AllWhitespace(PageText(items[k]))
    decreases |items|
  {
    if items != [] {
      AggregateBlankIff(items[1..]);
      var c := Contribution(items[0]).value;
      AllWhitespaceAppend(c, Aggregate(items[1..]).value);
      if Succeeded(items[0]) {
        AllWhitespaceAppend("\n\n", PageText(items[0]));
      }
      assert forall k :: 1 <= k < |items| ==> items[k] == items[1..][k - 1];
    }
  }

  /** The documentation a crawl yields: the text and the address it was asked for. */
  datatype CrawlResult = CrawlResult(content: string, source: string, memoryStats: Option<Json>)

  /**
   * `crawlDocumentation(url)` once the crawler has answered: `ok` is the HTTP outcome, `body` the decoded
   * reply (or the decoding error). A refusal reports the reply's `detail`; an unsuccessful crawl its
   * `error_message`; a crawl with only blank pages 'No content found in crawled documentation'.
   */
  function CrawlOutcome(url: string, ok: bool, body: Result<Json, string>): (r: Result<CrawlResult, string>)
    ensures r.Success? ==>
              && ok && body.Success? && body.value.JObject? && "data" in body.value.fields
              && body.value.fields["data"].JArray?
              && Aggregate(body.value.fields["data"].items).Success?
              && r.value.content == Trim(Aggregate(body.value.fields["data"].items).value)
              && r.value.source == url
    ensures r.Success? ==> r.value.content != "" && Trim(r.value.content) == r.value.content
    ensures ok && body.Success? && body.value.JObject? && Truthy(Member(body.value, "success").value)
            && "data" in body.value.fields && body.value.fields["data"].JArray?
            && Aggregate(body.value.fields["data"].items).Success?
            && Trim(Aggregate(body.value.fields["data"].items).value) != "" ==>
              r == Success(CrawlResult(Trim(Aggregate(body.value.fields["data"].items).value), url,
                                       Member(body.value, "memory_stats").value))
  {
    if body.Failure? then Failure(body.error)
    else
      var data := body.value;
      if !ok then
        match Member(data, "detail")
        case Failure(e) => Failure(e)
        case Success(detail) => Failure(ToJsString(OrElse(detail, JString("Failed to crawl documentation"))))
      else
        match Member(data, "success")
        case Failure(e) => Failure(e)
        case Success(success) =>
          if !Truthy(success) then
            var message := Member(data, "error_message").value;
            Failure(ToJsString(OrElse(message, JString("Failed to process documentation"))))
          else
            var pages := Member(data, "data").value;
            if pages.None? then Failure("Cannot read properties of undefined (reading 'reduce')")
            else if pages.value.JNull? then Failure("Cannot read properties of null (reading 'reduce')")
            else if !pages.value.JArray? then Failure("data.data.reduce is not a function")
            else match Aggregate(pages.value.items)
              case Failure(e) => Failure(e)
              case Success(text) =>
                var processed := Trim(text);
                if processed == "" then Failure("No content found in crawled documentation")
                else
                  TrimIdempotent(text);
                  Success(CrawlResult(processed, url, Member(data, "memory_stats").value))
  }

  /** A refused request reports the reply's `detail` when it is truthy, else 'Failed to crawl documentation'. */
  lemma RefusedCrawlMessage(url: string, data: Json)
    requires !data.JNull?
    ensures var detail := Member(data, "detail").value;
            && (Truthy(detail) ==> CrawlOutcome(url, false, Success(data)) == Failure(ToJsString(detail.value)))
            && (!Truthy(detail) ==> CrawlOutcome(url, false, Success(data)) == Failure("Failed to crawl documentation"))
  {
  }

  /**
   * An answered crawl whose `success` is falsy reports the reply's `error_message` when it is truthy,
   * else 'Failed to process documentation'.
   */
  lemma UnsuccessfulCrawlMessage(url: string, data: Json)
    requires !data.JNull? && !Truthy(Member(data, "success").value)
    ensures var message := Member(data, "error_message").value;
            && (Truthy(message) ==> CrawlOutcome(url, true, Success(data)) == Failure(ToJsString(message.value)))
            && (!Truthy(message) ==> CrawlOutcome(url, true, Success(data)) == Failure("Failed to process documentation"))
  {
  }

  /** A succeeded crawl whose `data` is missing or `null` fails as reading `reduce` from it does. */
  lemma MissingPagesFail(url: string, data: Json)
    requires data.JObject? && "success" in data.fields && Truthy(Some(data.fields["success"]))
    ensures "data" !in data.fields ==>
              CrawlOutcome(url, true, Success(data)) == Failure("Cannot read properties of undefined (reading 'reduce')")
    ensures "data" in data.fields && data.fields["data"].JNull? ==>
              CrawlOutcome(url, true, Success(data)) == Failure("Cannot read properties of null (reading 'reduce')")
  {
  }

  /**
   * A successful reply whose pages are all objects yields 'No content found in crawled documentation'
   * exactly when no succeeded page brought anything but white space.
   */
  lemma NoContentIff(url: string, data: Json)
    requires data.JObject? && "success" in data.fields && Truthy(Some(data.fields["success"]))
    requires "data" in data.fields && data.fields["data"].JArray?
    requires forall k :: 0 <= k < |data.fields["data"].items| ==> !data.fields["data"].items[k].JNull?
    ensures var items := data.fields["data"].items;
            CrawlOutcome(url, true, Success(data)) == Failure("No content found in crawled documentation") <==>
              forall k :: 0 <= k < |items| && Succeeded(items[k]) ==> AllWhitespace(PageText(items[k]))
  {
    var items := data.fields["data"].items;
    AggregateBlankIff(items);
    TrimEmptyIff(Aggregate(items).value);
  }
}
