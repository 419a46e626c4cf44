/**
 * Resolving links found on catalog pages against the catalog's base address, as
 * Python's `urllib.parse.urljoin('https://apkpure.com', ref)` does for the kinds of
 * reference the pages carry.
 */
module Urls {
  import opened Common
  import opened Text

  const Base: string := "https://apkpure.com"

  /** The catalog's domain; the search filter keeps addresses that contain it. */
  const Domain: string := "apkpure.com"

  predicate IsAsciiLetter(c: char) { 'a' <= c <= 'z' || 'A' <= c <= 'Z' }

  predicate IsAsciiDigit(c: char) { '0' <= c <= '9' }

  predicate IsSchemeChar(c: char) { IsAsciiLetter(c) || IsAsciiDigit(c) || c in {'+', '-', '.'} }

  /**
   * The index of the ':' that ends `ref`'s scheme, when it has one (urlsplit's rule: the
   * text before the first ':' is non-empty, starts with an ASCII letter and holds only
   * letters, digits, '+', '-' and '.').
   */
  function SchemeEnd(ref: string): (i: Option<nat>)
    ensures i.Some? ==>
              && 0 < i.value < |ref| && ref[i.value] == ':' && IsAsciiLetter(ref[0])
              && forall k :: 0 <= k < i.value ==> IsSchemeChar(ref[k])
  {
    match FirstUsable(ref, (c: char) => c == ':')
    case None => None
    case Some(i) =>
      if i > 0 && IsAsciiLetter(ref[0]) && forall k :: 0 <= k < i ==> IsSchemeChar(ref[k]) then Some(i) else None
  }

  predicate HasScheme(ref: string) {
    SchemeEnd(ref).Some?
  }

  /** The scheme is the base's own, `https` in any letter case: urljoin resolves the rest against the base. */
  predicate HasBaseScheme(ref: string) {
    SchemeEnd(ref).Some? && Lower(ref[..SchemeEnd(ref).value]) == "https"
  }

  /** What urljoin resolves against the base: the text after an `https:` scheme, or the whole reference. */
  function Rest(ref: string): string {
    if HasBaseScheme(ref) then ref[SchemeEnd(ref).value + 1..] else ref
  }

  /** The length of the host named after a leading "//": up to the first '/', '?' or '#'. */
  function HostLength(rest: string): nat
    requires StartsWith(rest, "//")
  {
    match FirstUsable(rest[2..], (c: char) => c == '/' || c == '?' || c == '#')
    case None => |rest| - 2
    case Some(k) => k
  }

  /** `rest` starts with "//" and a non-empty host. */
  predicate NamesHost(rest: string) {
    StartsWith(rest, "//") && HostLength(rest) > 0
  }

  /** A C0 control character or a space: what `urlsplit` strips from the front of a reference. */
  predicate IsC0OrSpace(c: char) {
    c <= ' '
  }

  /** The reference as `urlsplit` reads it, without its leading C0 controls and spaces. */
  function Trimmed(ref: string): (t: string)
    ensures |t| <= |ref|
    ensures t != [] ==> !IsC0OrSpace(t[0])
  {
    ref[LeadingSpaces(ref, IsC0OrSpace)..]
  }

  /** The reference names a scheme other than the base's; urljoin then returns it untouched. */
  predicate ForeignScheme(ref: string) {
    HasScheme(Trimmed(ref)) && !HasBaseScheme(Trimmed(ref))
  }

  /** The reference leaves the base's origin: another scheme, or a host of its own. */
  predicate CarriesOrigin(ref: string) {
    ForeignScheme(ref) || NamesHost(Rest(Trimmed(ref)))
  }

  /** Resolving a reference without a scheme against `https://apkpure.com` (whose path is empty). */
  function JoinRest(rest: string): (r: string)
    ensures r != []
    ensures NamesHost(rest) ==> r == "https:" + rest
    ensures !NamesHost(rest) ==> StartsWith(r, Base)
  {
    if StartsWith(rest, "//") then
      if HostLength(rest) > 0 then "https:" + rest else Base + rest[2..]
    else if rest == "" then Base
    else if rest[0] == '/' || rest[0] == '?' || rest[0] == '#' then Base + rest
    else Base + "/" + rest
  }

  /** `urljoin('https://apkpure.com', ref)`. */
  function UrlJoin(ref: string): (r: string)
    ensures r != []
    ensures ForeignScheme(ref) ==> r == ref
    ensures NamesHost(Rest(Trimmed(ref))) ==> r == "https:" + Rest(Trimmed(ref))
    ensures !CarriesOrigin(ref) ==> StartsWith(r, Base)
  {
    if ForeignScheme(ref) then ref else JoinRest(Rest(Trimmed(ref)))
  }

  /**
   * A reference with the base's own scheme and no host of its own resolves as the same
   * reference without the scheme: `https:foo` gives `https://apkpure.com/foo`.
   */
  lemma SameSchemeIsRelative(tail: string)
    requires !HasScheme(tail)
    ensures UrlJoin("https:" + tail) == JoinRest(tail)
    ensures tail == [] || !IsC0OrSpace(tail[0]) ==> UrlJoin("https:" + tail) == UrlJoin(tail)
  {
    HttpsPrefixRead(tail);
    if tail == [] || !IsC0OrSpace(tail[0]) {
      assert tail[0..] == tail;
    }
  }

  /** `https:` in front of a reference is read as the base's scheme, and the reference as what follows it. */
  lemma HttpsPrefixRead(tail: string)
    ensures Trimmed("https:" + tail) == "https:" + tail
    ensures HasBaseScheme("https:" + tail) && Rest("https:" + tail) == tail
  {
    var ref := "https:" + tail;
    assert ref[0] == 'h' && ref[0..] == ref;
    assert ref[5] == ':';
    assert forall k :: 0 <= k < 5 ==> ref[k] != ':' && IsSchemeChar(ref[k]);
    assert SchemeEnd(ref) == Some(5);
    assert ref[..5] == "https";
    assert Lower("https") == "https";
    assert ref[6..] == tail;
  }

  /**
   * Leading controls and spaces do not change how a reference resolves: its scheme and
   * host are read after them, and only a reference with a foreign scheme is returned
   * with them kept.
   */
  lemma PaddingIgnored(pad: string, ref: string)
    requires forall k :: 0 <= k < |pad| ==> IsC0OrSpace(pad[k])
    ensures Trimmed(pad + ref) == Trimmed(ref)
    ensures ForeignScheme(pad + ref) <==> ForeignScheme(ref)
    ensures CarriesOrigin(pad + ref) <==> CarriesOrigin(ref)
    ensures !ForeignScheme(ref) ==> UrlJoin(pad + ref) == UrlJoin(ref)
  {
    var n := LeadingSpaces(ref, IsC0OrSpace);
    LeadingSpacesOfPadded(pad, ref, IsC0OrSpace);
    assert (pad + ref)[|pad| + n..] == ref[n..];
  }

  /** Every reference that names neither another scheme nor a host resolves onto the catalog's domain. */
  lemma RelativeStaysOnCatalog(ref: string)
    requires !CarriesOrigin(ref)
    ensures Contains(UrlJoin(ref), Domain)
  {
    var r := UrlJoin(ref);
    assert r[8..8 + |Domain|] == Domain;
    assert OccursAt(r, Domain, 8);
  }

  /** The scraper's `if not url.startswith('http'): url = urljoin(base, url)`. */
  function Absolute(url: string): (r: string)
    ensures StartsWith(url, "http") ==> r == url
    ensures !StartsWith(url, "http") ==> r == UrlJoin(url)
  {
    if StartsWith(url, "http") then url else UrlJoin(url)
  }

  /** After `Absolute` the address starts with "http", unless it carried a scheme other than https. */
  lemma AbsoluteStartsWithHttp(url: string)
    requires !ForeignScheme(url) || StartsWith(url, "http")
    ensures StartsWith(Absolute(url), "http")
  {
    if !StartsWith(url, "http") {
      var r := UrlJoin(url);
      if NamesHost(Rest(Trimmed(url))) {
        assert r[..4] == "http";
      } else {
        assert r[..|Base|] == Base;
        assert r[..4] == Base[..4];
      }
    }
  }
}
