/**
 * The detail-page half of `get_app_info_and_download`: icon, version and developer
 * with their defaults, and the two "first selector whose anchor has an href" chains
 * that lead to the package.
 */
module LinkResolver {
  import opened Common
  import opened Text
  import opened Urls
  import opened Pages

  // ----- icon -----

  /** A looked-up attribute that is present and non-empty (truthy in Python). */
  predicate Usable(attribute: Option<string>) {
    attribute.Some? && attribute.value != ""
  }

  /** The four icon sources, in the order they are tried. */
  function IconSources(page: DetailPage): seq<Option<string>> {
    [page.ogImage, page.itempropImage, page.iconContainerImage, page.iconClassImage]
  }

  /** The number of leading ASCII digits of `s`. */
  function DigitRun(s: string): (n: nat)
    ensures n <= |s|
    ensures forall k :: 0 <= k < n ==> IsAsciiDigit(s[k])
    ensures n < |s| ==> !IsAsciiDigit(s[n])
  {
    if |s| > 0 && IsAsciiDigit(s[0]) then 1 + DigitRun(s[1..]) else 0
  }

  /** The pattern `/w/\d+`: a thumbnail width written as a path segment. */
  function WidthSegment(s: string): nat {
    if StartsWith(s, "/w/") && DigitRun(s[3..]) > 0 then 3 + DigitRun(s[3..]) else 0
  }

  /** The pattern `=w\d+`: a thumbnail width written as an image-server modifier. */
  function WidthModifier(s: string): nat {
    if StartsWith(s, "=w") && DigitRun(s[2..]) > 0 then 2 + DigitRun(s[2..]) else 0
  }

  /** Drop every `/w/<digits>`, then every `=w<digits>`, then make the address absolute. */
  function NormalizeIcon(url: string): string {
    Absolute(DeleteMatches(DeleteMatches(url, WidthSegment), WidthModifier))
  }

  /** The icon address: the first usable source, normalised; None when no source is usable. */
  function IconUrl(page: DetailPage): (icon: Option<string>)
    ensures icon.None? <==> forall k :: 0 <= k < 4 ==> !Usable(IconSources(page)[k])
  {
    var sources := IconSources(page);
    match FirstUsable(sources, Usable)
    case None => None
    case Some(k) => Some(NormalizeIcon(sources[k].value))
  }

  /** An earlier usable icon source always wins over the later ones. */
  lemma IconSourcePriority(page: DetailPage, k: nat)
    requires k < 4 && Usable(IconSources(page)[k])
    requires forall j :: 0 <= j < k ==> !Usable(IconSources(page)[j])
    ensures IconUrl(page) == Some(NormalizeIcon(IconSources(page)[k].value))
  {
  }

  /** An address with no width marker is only made absolute. */
  lemma IconWithoutWidthMarkers(url: string)
    requires forall i :: 0 <= i < |url| ==> !MatchesAt(url, WidthSegment, i) && !MatchesAt(url, WidthModifier, i)
    ensures NormalizeIcon(url) == Absolute(url)
  {
    DeleteMatchesChangesIffMatch(url, WidthSegment);
    DeleteMatchesChangesIffMatch(url, WidthModifier);
  }

  /** An address carrying a width marker always loses characters to the rewriting. */
  lemma IconWidthMarkerRemoved(url: string, i: nat)
    requires MatchesAt(url, WidthSegment, i) || MatchesAt(url, WidthModifier, i)
    ensures |DeleteMatches(DeleteMatches(url, WidthSegment), WidthModifier)| < |url|
  {
    var once := DeleteMatches(url, WidthSegment);
    DeleteMatchesChangesIffMatch(url, WidthSegment);
    DeleteMatchesChangesIffMatch(once, WidthModifier);
    if !MatchesAt(url, WidthSegment, i) && once == url {
      assert MatchesAt(once, WidthModifier, i);
    }
  }

  // ----- version and developer -----

  const VersionLabel: string := "Version:"

  /** "Latest" without a version element, else its text with every "Version:" removed, stripped. */
  function Version(page: DetailPage): (v: string)
    ensures page.versionText.None? ==> v == "Latest"
    ensures page.versionText.Some? ==> v == PyStrip(RemoveAll(page.versionText.value, VersionLabel))
  {
    match page.versionText
    case None => "Latest"
    case Some(text) => PyStrip(RemoveAll(text, VersionLabel))
  }

  /** A found version text never keeps surrounding whitespace, and one without the label is only stripped. */
  lemma VersionFromElement(page: DetailPage)
    requires page.versionText.Some?
    ensures var v := Version(page); v != "" ==> !IsPySpace(v[0]) && !IsPySpace(v[|v| - 1])
    ensures !Contains(page.versionText.value, VersionLabel) ==> Version(page) == PyStrip(page.versionText.value)
  {
    RemoveAllIdentityIffAbsent(page.versionText.value, VersionLabel);
  }

  /** "Unknown" without an author element, else that element's text. */
  function Developer(page: DetailPage): (d: string)
    ensures page.authorText.None? ==> d == "Unknown"
    ensures page.authorText.Some? ==> d == page.authorText.value
  {
    page.authorText.GetOr("Unknown")
  }

  // ----- link chains -----

  /** The selector found an anchor whose href is present and non-empty. */
  predicate HasHref(found: Option<Anchor>) {
    found.Some? && found.value.href.Some? && found.value.href.value != ""
  }

  /** The href of the first selector in the chain whose anchor has one. */
  function FirstHref(found: seq<Option<Anchor>>): (href: Option<string>)
    ensures href.None? <==> forall k :: 0 <= k < |found| ==> !HasHref(found[k])
    ensures href.Some? ==> href.value != ""
  {
    match FirstUsable(found, HasHref)
    case None => None
    case Some(k) => Some(found[k].value.href.value)
  }

  /** Once a selector yields an href, the selectors after it are never consulted. */
  lemma {:induction false} LaterSelectorsIgnored(found: seq<Option<Anchor>>, other: seq<Option<Anchor>>, k: nat)
    requires k < |found| && k < |other| && found[..k + 1] == other[..k + 1]
    requires HasHref(found[k])
    ensures FirstHref(found) == FirstHref(other)
    decreases k
  {
    assert found[0] == other[0];
    if k > 0 && !HasHref(found[0]) {
      assert found[1..][..k] == other[1..][..k];
      LaterSelectorsIgnored(found[1..], other[1..], k - 1);
      assert FirstUsable(found, HasHref).Some? && FirstUsable(found[1..], HasHref).Some?;
    }
  }

  /**
   * `for selector in selectors: link = find(selector); if link and link.get('href'): break`
   * followed by the check that the last link tried has an href.
   */
  method FindLink(found: seq<Option<Anchor>>) returns (href: Option<string>)
    ensures href == FirstHref(found)
  {
    var link: Option<Anchor> := None;
    var i := 0;
    while i < |found|
      invariant 0 <= i <= |found|
      invariant forall j :: 0 <= j < i ==> !HasHref(found[j])
      invariant !HasHref(link)
    {
      link := found[i];
      if HasHref(link) {
        FirstUsableIsFirst(found, i);
        break;
      }
      i := i + 1;
    }
    if !HasHref(link) {
      return None;
    }
    href := Some(link.value.href.value);
  }

  lemma FirstUsableIsFirst(found: seq<Option<Anchor>>, i: nat)
    requires i < |found| && HasHref(found[i])
    requires forall j :: 0 <= j < i ==> !HasHref(found[j])
    ensures FirstHref(found) == Some(found[i].value.href.value)
  {
  }
}
