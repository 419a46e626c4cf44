/**
 * What the scraper reads from the outside world. HTML documents appear only through
 * the results of the BeautifulSoup lookups the scraper performs on them, and every
 * network call is a total function whose `None` stands for a transport fault, a
 * timeout or a non-2xx status.
 */
module Pages {
  import opened Common

  /** An `<a>` element: its `href` and `title` attributes and its stripped visible text. */
  datatype Anchor = Anchor(href: Option<string>, title: Option<string>, text: string)

  /**
   * One element matched by a search-result selector, with the stripped text of the
   * first `p.p1` or `div.title` inside it (None when it has neither).
   */
  datatype ResultItem =
    | LinkItem(link: Anchor, titleText: Option<string>)
      // the matched element is itself an `<a>`
    | BoxItem(firstLink: Option<Anchor>, titleText: Option<string>)
      // any other element; `firstLink` is its first descendant `<a>` with an href

  /** The search listing, read through the four selectors of the extraction chain. */
  datatype SearchPage = SearchPage(
    firstDivs: seq<ResultItem>,                // every div.first
    firstInfoLinks: seq<ResultItem>,           // every a.first-info
    searchDls: seq<ResultItem>,                // every dl.search-dl
    containerLinks: Option<seq<ResultItem>>)   // the `/.../.../download` anchors inside the first
                                               // of div#search-res, div.search-result (None: neither exists)

  /** An application's detail page, read through the lookups of the metadata and link chains. */
  datatype DetailPage = DetailPage(
    ogImage: Option<string>,             // content of meta[property=og:image]
    itempropImage: Option<string>,       // src of img[itemprop=image]
    iconContainerImage: Option<string>,  // src of the img inside the first of div.icon, div.app-icon
    iconClassImage: Option<string>,      // src of img.icon
    versionText: Option<string>,         // stripped text of the first of span.version, div.ver
    authorText: Option<string>,          // stripped text of the first of a[itemprop=author], p.author
    downloadButtons: seq<Option<Anchor>>)
      // first anchor found by each selector, in order: class download-btn, class da,
      // id download_button, text matching /Download.*APK/i

  /** The intermediate download page. */
  datatype DownloadPage = DownloadPage(
    directLinks: seq<Option<Anchor>>)
      // first anchor found by each selector, in order: id download_link, class download-click,
      // class downloadButton, href matching /\.(apk|xapk|apks)$/i

  /** The `content-length` response header as `int(...)` sees it. */
  datatype ContentLength = NoLength | Declared(n: int) | Unparsable

  /**
   * A streamed package response: the content-disposition header ("" when absent), the
   * content length, the chunks `iter_content` yields, and whether the stream ends
   * normally (false: it raises after yielding `chunks`).
   */
  datatype Stream = Stream(contentDisposition: string, contentLength: ContentLength,
                           chunks: seq<Bytes>, completes: bool)

  /**
   * The translation service's answer: no answer at all (network fault, timeout), or a
   * status with the first translated segment, None when the body is not JSON of the
   * expected shape.
   */
  datatype TranslationReply = NoReply | Reply(status: int, firstSegment: Option<string>)

  /** The external collaborators, each a function of the address or text it is asked about. */
  datatype Web = Web(
    translate: string -> TranslationReply,
    search: string -> Option<SearchPage>,       // keyed by the (translated) query
    detail: string -> Option<DetailPage>,
    download: string -> Option<DownloadPage>,
    stream: string -> Option<Stream>)
}
