/**
 * The form in which a documentation homepage address is entered: the sitemap address derived from it,
 * the guards in front of a submission and the state they leave (the address, the error on show and
 * the crawl status).
 */
module UrlInput {
  import opened Wrappers
  import opened Text
  import opened JsValue
  import Crawler

  /** `getSitemapUrl`: one trailing slash is removed and `/sitemap.xml` appended, unconditionally. */
  function GetSitemapUrl(baseUrl: string): string {
    Crawler.DropTrailingSlash(baseUrl) + "/sitemap.xml"
  }

  /** The derived address ends with `/sitemap.xml`. */
  lemma GetSitemapUrlEnds(baseUrl: string)
    ensures EndsWith(GetSitemapUrl(baseUrl), "/sitemap.xml")
  {
    EndsWithAppend(Crawler.DropTrailingSlash(baseUrl), "/sitemap.xml");
  }

  /**
   * What precedes the appended `/sitemap.xml` is the address entered, less at most one trailing slash:
   * exactly one when the address ends with a slash, none otherwise.
   */
  lemma GetSitemapUrlKeepsAddress(baseUrl: string)
    ensures var r := GetSitemapUrl(baseUrl);
            |r| >= 12 && (if EndsWith(baseUrl, "/") then r[..|r| - 12] + "/" else r[..|r| - 12]) == baseUrl
  {
    var d := Crawler.DropTrailingSlash(baseUrl);
    assert (d + "/sitemap.xml")[..|d|] == d;
  }

  /**
   * An address that already ends with `/sitemap.xml` gets the suffix a second time: deriving is not
   * idempotent here, unlike the crawler service's derivation.
   */
  lemma SitemapSuffixDoubled(baseUrl: string)
    requires EndsWith(baseUrl, "/sitemap.xml")
    ensures GetSitemapUrl(baseUrl) == baseUrl + "/sitemap.xml"
    ensures GetSitemapUrl(baseUrl) != baseUrl
  {
    assert baseUrl[|baseUrl| - 1] == 'l';
  }

  /**
   * Were the form's derived address handed to the crawler service, the service would pass it on
   * unchanged. The application does not wire the two together: the home page calls a
   * `crawlDocumentationUrl` that the documentation context does not provide.
   */
  lemma ServiceKeepsFormAddress(baseUrl: string)
    ensures Crawler.SitemapUrl(GetSitemapUrl(baseUrl)) == GetSitemapUrl(baseUrl)
  {
    Crawler.AppendedNamesSitemap(Crawler.DropTrailingSlash(baseUrl));
  }

  const EmptyUrlError := "Please enter a documentation URL"
  const InvalidUrlError := "Please enter a valid URL"
  const SubmitFailedError := "Failed to process documentation"
  const StartingMessage := "Starting documentation crawl..."

  /** The crawl status on show. */
  datatype CrawlingStatus = CrawlingStatus(message: string, memoryUsage: Option<Json>)

  class UrlForm {
    var url: string
    var error: string
    var crawlingStatus: Option<CrawlingStatus>

    /** Nothing entered, no error, no status. */
    constructor()
      ensures url == "" && error == "" && crawlingStatus.None?
    {
      url := "";
      error := "";
      crawlingStatus := None;
    }

    /** `handleUrlChange`: the new address is kept, and the error and the crawl status are cleared. */
    method HandleUrlChange(value: string)
      modifies this
      ensures url == value && error == "" && crawlingStatus.None?
    {
      url := value;
      error := "";
      crawlingStatus := None;
    }

    /**
     * `handleSubmit`. `validUrl` stands for the `URL` constructor accepting the address; `onUrlSubmit`
     * for the submission, giving the message of the error it throws (None when it does not throw).
     * The empty address is refused before validity is looked at; a refused address submits nothing;
     * otherwise the derived sitemap address is submitted, with the starting status on show, and a
     * thrown error is shown (its message, else the default) with the status cleared.
     */
    method HandleSubmit(validUrl: string -> bool, onUrlSubmit: string -> Option<string>)
      returns (submitted: Option<string>)
      modifies this
      ensures url == old(url)
      ensures url == "" ==> submitted.None? && error == EmptyUrlError && crawlingStatus.None?
      ensures url != "" && !validUrl(url) ==>
                submitted.None? && error == InvalidUrlError && crawlingStatus.None?
      ensures url != "" && validUrl(url) ==> submitted == Some(GetSitemapUrl(url))
      ensures url != "" && validUrl(url) && onUrlSubmit(GetSitemapUrl(url)).None? ==>
                error == "" && crawlingStatus == Some(CrawlingStatus(StartingMessage, None))
      ensures url != "" && validUrl(url) && onUrlSubmit(GetSitemapUrl(url)).Some? ==>
                var message := onUrlSubmit(GetSitemapUrl(url)).value;
                error == (if message != "" then message else SubmitFailedError) && crawlingStatus.None?
    {
      error := "";
      crawlingStatus := None;
      if url == "" {
        error := EmptyUrlError;
        return None;
      }
      if !validUrl(url) {
        error := InvalidUrlError;
        return None;
      }
      var sitemapUrl := GetSitemapUrl(url);
      crawlingStatus := Some(CrawlingStatus(StartingMessage, None));
      submitted := Some(sitemapUrl);
      match onUrlSubmit(sitemapUrl) {
        case None =>
        case Some(message) =>
          error := if message != "" then message else SubmitFailedError;
          crawlingStatus := None;
      }
    }
  }
}
