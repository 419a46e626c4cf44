/**
 * The catalog search (`search_apkpure`): translate the query, fetch the listing, take
 * the first selector of the chain that matched anything, and turn its first five
 * elements into (address, title) candidates.
 */
module SearchResolver {
  import opened Common
  import opened Text
  import opened Urls
  import opened Pages
  import opened QueryNormalizer

  /** At most this many matched elements are examined. */
  const MaxResults: nat := 5

  datatype Candidate = Candidate(url: string, title: string)

  /** The candidates the orchestrator accepts: on the catalog's domain and titled. */
  predicate IsValidCandidate(c: Candidate) {
    Contains(c.url, Domain) && c.title != ""
  }

  /** The selector chain, in the order it is tried. */
  function SelectorChain(page: SearchPage): seq<seq<ResultItem>> {
    [page.firstDivs, page.firstInfoLinks, page.searchDls, page.containerLinks.GetOr([])]
  }

  /** The elements of the first selector that matched at least one, or none at all. */
  function MatchedItems(page: SearchPage): (items: seq<ResultItem>)
    ensures items == [] <==> forall k :: 0 <= k < 4 ==> SelectorChain(page)[k] == []
    ensures items != [] ==>
              exists k :: 0 <= k < 4 && items == SelectorChain(page)[k]
                && forall j :: 0 <= j < k ==> SelectorChain(page)[j] == []
  {
    var chain := SelectorChain(page);
    match FirstUsable(chain, (items: seq<ResultItem>) => |items| > 0)
    case None => []
    case Some(k) => chain[k]
  }

  /** The element itself when it is a link, else its first link with an href. */
  function LinkOf(item: ResultItem): Option<Anchor> {
    match item
    case LinkItem(link, _) => Some(link)
    case BoxItem(firstLink, _) => firstLink
  }

  /** The title attribute, else the nested title element's text, else the link's own text. */
  function TitleOf(link: Anchor, titleText: Option<string>): string {
    var title := link.title.GetOr("");
    if title != "" then title
    else
      var nested := titleText.GetOr("");
      if nested != "" then nested else link.text
  }

  /** The three title sources, in the order they are preferred. */
  function TitleSources(link: Anchor, titleText: Option<string>): seq<string> {
    [link.title.GetOr(""), titleText.GetOr(""), link.text]
  }

  /** The title is the first non-empty source, and empty only when every source is. */
  lemma TitleIsFirstNonEmptySource(link: Anchor, titleText: Option<string>)
    ensures var sources := TitleSources(link, titleText);
      match FirstUsable(sources, (s: string) => s != "")
      case Some(k) => TitleOf(link, titleText) == sources[k]
      case None => TitleOf(link, titleText) == ""
  {
    var sources := TitleSources(link, titleText);
    if FirstUsable(sources, (s: string) => s != "").None? {
      assert sources[0] == "" && sources[1] == "" && sources[2] == "";
    }
  }

  /** The candidate one matched element yields, if any. */
  function CandidateOf(item: ResultItem): (c: Option<Candidate>)
    ensures c.Some? ==> IsValidCandidate(c.value)
    ensures LinkOf(item).None? ==> c.None?
  {
    match LinkOf(item)
    case None => None
    case Some(link) =>
      var url := UrlJoin(link.href.GetOr(""));
      if url == "" || !Contains(url, Domain) then None
      else
        var title := TitleOf(link, item.titleText);
        if title != "" && url != "" then Some(Candidate(url, title)) else None
  }

  /**
   * A linked element is kept exactly when its joined address contains the domain and
   * it has a title, and then its candidate is that address with that title.
   */
  lemma CandidateOfLinkedItem(item: ResultItem)
    requires LinkOf(item).Some?
    ensures var link := LinkOf(item).value;
      var url := UrlJoin(link.href.GetOr(""));
      && (CandidateOf(item).Some? <==> Contains(url, Domain) && TitleOf(link, item.titleText) != "")
      && (CandidateOf(item).Some? ==> CandidateOf(item).value == Candidate(url, TitleOf(link, item.titleText)))
  {
  }

  /** The candidates of a sequence of elements, in element order. */
  function Candidates(items: seq<ResultItem>): (cs: seq<Candidate>)
    ensures |cs| <= |items|
    decreases |items|
  {
    if |items| == 0 then []
    else
      var last := items[|items| - 1];
      Candidates(items[..|items| - 1]) + (match CandidateOf(last) case Some(c) => [c] case None => [])
  }

  /** Extraction commutes with concatenation: the order of the elements is the order of the candidates. */
  lemma {:induction false} CandidatesAppend(a: seq<ResultItem>, b: seq<ResultItem>)
    ensures Candidates(a + b) == Candidates(a) + Candidates(b)
    decreases |b|
  {
    if |b| == 0 {
      assert a + b == a;
    } else {
      var b' := b[..|b| - 1];
      assert (a + b)[..|a + b| - 1] == a + b';
      CandidatesAppend(a, b');
    }
  }

  /** Every candidate comes from one element, and elements that give none are skipped. */
  lemma {:induction false} CandidatesFromItems(items: seq<ResultItem>)
    ensures |Candidates(items)| <= |items|
    ensures forall c :: c in Candidates(items) ==>
              IsValidCandidate(c) && exists j :: 0 <= j < |items| && CandidateOf(items[j]) == Some(c)
    decreases |items|
  {
    if |items| > 0 {
      var init := items[..|items| - 1];
      CandidatesFromItems(init);
      forall c | c in Candidates(items)
        ensures IsValidCandidate(c) && exists j :: 0 <= j < |items| && CandidateOf(items[j]) == Some(c)
      {
        if c in Candidates(init) {
          var j :| 0 <= j < |init| && CandidateOf(init[j]) == Some(c);
          assert items[j] == init[j];
        } else {
          assert CandidateOf(items[|items| - 1]) == Some(c);
        }
      }
    }
  }

  /** No element that yields a candidate is lost: its candidate is among the results. */
  lemma {:induction false} CandidatesComplete(items: seq<ResultItem>, j: nat)
    requires j < |items| && CandidateOf(items[j]).Some?
    ensures CandidateOf(items[j]).value in Candidates(items)
    decreases |items|
  {
    var init := items[..|items| - 1];
    var c := CandidateOf(items[j]).value;
    if j < |init| {
      assert items[j] == init[j];
      CandidatesComplete(init, j);
    } else {
      assert CandidateOf(items[|items| - 1]) == Some(c);
      assert Candidates(items) == Candidates(init) + [c];
    }
  }

  /** The `search_results[:5]` slice. */
  function Capped(items: seq<ResultItem>): (r: seq<ResultItem>)
    ensures |r| <= MaxResults && |r| <= |items| && r == items[..|r|]
    ensures |items| >= MaxResults ==> |r| == MaxResults
  {
    if |items| <= MaxResults then items else items[..MaxResults]
  }

  /** What `search_apkpure` returns for a query. */
  function Search(appName: string, web: Web): (results: seq<Candidate>)
    ensures |results| <= MaxResults
    ensures forall c :: c in results ==> IsValidCandidate(c)
    ensures web.search(TranslateToEnglish(appName, web.translate)).None? ==> results == []
  {
    var query := TranslateToEnglish(appName, web.translate);
    match web.search(query)
    case None => []
    case Some(page) =>
      var items := Capped(MatchedItems(page));
      CandidatesFromItems(items);
      Candidates(items)
  }

  /**
   * With a listing, the search yields exactly the candidates of the first five matched
   * elements: each one it returns comes from one of them, and none of theirs is lost.
   */
  lemma SearchIsListedCandidates(appName: string, web: Web, page: SearchPage)
    requires web.search(TranslateToEnglish(appName, web.translate)) == Some(page)
    ensures var capped := Capped(MatchedItems(page));
      forall c :: c in Search(appName, web) <==>
        exists j :: 0 <= j < |capped| && CandidateOf(capped[j]) == Some(c)
  {
    var capped := Capped(MatchedItems(page));
    CandidatesFromItems(capped);
    forall c | exists j :: 0 <= j < |capped| && CandidateOf(capped[j]) == Some(c)
      ensures c in Search(appName, web)
    {
      var j :| 0 <= j < |capped| && CandidateOf(capped[j]) == Some(c);
      CandidatesComplete(capped, j);
    }
  }

  /** One more element adds its candidate, if it yields one, at the end. */
  lemma CandidatesStep(items: seq<ResultItem>, i: nat)
    requires i < |items|
    ensures CandidateOf(items[i]).None? ==> Candidates(items[..i + 1]) == Candidates(items[..i])
    ensures CandidateOf(items[i]).Some? ==>
              Candidates(items[..i + 1]) == Candidates(items[..i]) + [CandidateOf(items[i]).value]
  {
    assert items[..i + 1][..i] == items[..i];
  }

  /** The loop of `search_apkpure` over the capped matched elements, in order. */
  method CollectCandidates(capped: seq<ResultItem>) returns (results: seq<Candidate>)
    ensures results == Candidates(capped)
  {
    results := [];
    var i := 0;
    while i < |capped|
      invariant 0 <= i <= |capped|
      invariant results == Candidates(capped[..i])
    {
      CandidatesStep(capped, i);
      var found := CandidateOf(capped[i]);
      if found.Some? {
        results := results + [found.value];
      }
      i := i + 1;
    }
    assert capped[..i] == capped;
  }

  /** `search_apkpure`: no page (a fault or a non-2xx answer) gives no candidates. */
  method SearchApkpure(appName: string, web: Web) returns (results: seq<Candidate>)
    ensures results == Search(appName, web)
    ensures |results| <= MaxResults
    ensures forall c :: c in results ==> IsValidCandidate(c)
  {
    var query := TranslateToEnglish(appName, web.translate);
    var response := web.search(query);
    if response.None? {
      return [];
    }
    var matched := MatchedItems(response.value);
    if |matched| == 0 {
      return [];
    }
    results := CollectCandidates(Capped(matched));
  }
}
