/**
 * One candidate's end-to-end attempt (`get_app_info_and_download`) and the request
 * as a whole (`download_app`): search, then try the candidates in ranking order until
 * one succeeds.
 */
module Orchestrator {
  import opened Common
  import opened Text
  import opened Urls
  import opened Pages
  import opened SearchResolver
  import opened LinkResolver
  import opened PackageFetcher

  /** The dictionary a successful attempt returns. */
  datatype AppInfo = AppInfo(
    name: string,
    version: string,
    sizeBytes: int,      // the declared content length; `sizeMB` is this divided by 2**20
    size: string,
    developer: string,
    filename: string,
    kind: PackageKind,
    iconUrl: Option<string>,
    hasObb: bool)

  /** A file (re)written under the downloads directory. */
  datatype FileWrite = FileWrite(name: string, contents: Bytes)

  /** What one attempt returns and what it leaves on disk. */
  datatype Attempt = Attempt(info: Option<AppInfo>, written: Option<FileWrite>)

  const Failed := Attempt(None, None)

  /** The declared size `int(headers.get('content-length', 0))`; None when `int` raises. */
  function DeclaredSize(length: ContentLength): Option<int> {
    match length
    case NoLength => Some(0)
    case Declared(n) => Some(n)
    case Unparsable => None
  }

  /**
   * The attempt once the package stream is open: an unreadable declared length fails
   * before any file is opened; otherwise the file holds every streamed byte, and a
   * success reports the file it wrote.
   */
  function FetchPackage(c: Candidate, page: DetailPage, url: string, stream: Stream): (r: Attempt)
    ensures DeclaredSize(stream.contentLength).None? <==> r == Failed
    ensures r.written.Some? ==> r.written.value.contents == Flatten(stream.chunks)
    ensures r.info.Some? ==> r.written.Some? && r.written.value.name == r.info.value.filename
    ensures r.written.Some? && r.info.None? <==> DeclaredSize(stream.contentLength).Some? && !stream.completes
  {
    var kind := Classify(stream.contentDisposition, url);
    match DeclaredSize(stream.contentLength)
    case None => Failed
    case Some(total) =>
      var name := Filename(c.title, kind);
      var written := Some(FileWrite(name, Flatten(stream.chunks)));
      if !stream.completes then Attempt(None, written)
      else
        Attempt(Some(AppInfo(c.title, Version(page), total, SizeLabel(total), Developer(page),
                             name, kind, IconUrl(page), HasObb(kind))), written)
  }

  /** `get_app_info_and_download`: every fault or miss before the stream is a soft failure with no file. */
  function AttemptOf(c: Candidate, web: Web): (r: Attempt)
    ensures r.info.Some? ==> r.written.Some? && r.written.value.name == r.info.value.filename
    ensures r.written.None? ==> r == Failed
  {
    match web.detail(c.url)
    case None => Failed
    case Some(page) =>
      match FirstHref(page.downloadButtons)
      case None => Failed
      case Some(href) =>
        match web.download(UrlJoin(href))
        case None => Failed
        case Some(downloadPage) =>
          match FirstHref(downloadPage.directLinks)
          case None => Failed
          case Some(direct) =>
            var url := Absolute(direct);
            match web.stream(url)
            case None => Failed
            case Some(stream) => FetchPackage(c, page, url, stream)
  }

  /**
   * Once the stream is open, a success describes the candidate it was given and the
   * file it wrote: named after the title and the sniffed kind, holding every streamed
   * byte in order, with hasOBB exactly for the bundle kind and the size taken from the
   * declared length rather than from the bytes counted.
   */
  lemma FetchSuccessShape(c: Candidate, page: DetailPage, url: string, stream: Stream)
    requires FetchPackage(c, page, url, stream).info.Some?
    ensures var info := FetchPackage(c, page, url, stream).info.value;
      && info.name == c.title
      && info.kind == Classify(stream.contentDisposition, url)
      && info.filename == Filename(c.title, info.kind)
      && info.hasObb == (info.kind == Xapk)
      && Some(info.sizeBytes) == DeclaredSize(stream.contentLength)
      && (info.sizeBytes <= 0 <==> info.size == "Unknown")
      && info.version == Version(page) && info.developer == Developer(page) && info.iconUrl == IconUrl(page)
      && FetchPackage(c, page, url, stream).written == Some(FileWrite(info.filename, Flatten(stream.chunks)))
  {
  }

  /**
   * The two-hop chase: the detail page of the candidate, its first download button, the
   * download page that button leads to, that page's first direct link made absolute,
   * and the package stream opened at that address.
   */
  predicate ReachesStream(c: Candidate, web: Web, page: DetailPage, url: string, stream: Stream) {
    && web.detail(c.url) == Some(page)
    && FirstHref(page.downloadButtons).Some?
    && var downloadPage := web.download(UrlJoin(FirstHref(page.downloadButtons).value));
    && downloadPage.Some?
    && FirstHref(downloadPage.value.directLinks).Some?
    && url == Absolute(FirstHref(downloadPage.value.directLinks).value)
    && web.stream(url) == Some(stream)
  }

  /** Once the chase reaches a stream, the attempt is the fetch of that stream. */
  lemma AttemptAfterChase(c: Candidate, web: Web, page: DetailPage, url: string, stream: Stream)
    requires ReachesStream(c, web, page, url, stream)
    ensures AttemptOf(c, web) == FetchPackage(c, page, url, stream)
  {
  }

  /**
   * An attempt that is not a soft failure followed the whole chase, both hops included;
   * a miss anywhere along it (no page, no download button, no download page, no direct
   * link, no stream) fails the attempt with no file.
   */
  lemma AttemptFollowsChase(c: Candidate, web: Web)
    ensures AttemptOf(c, web) == Failed
      || exists page, url, stream :: ReachesStream(c, web, page, url, stream)
           && AttemptOf(c, web) == FetchPackage(c, page, url, stream)
  {
    if AttemptOf(c, web) != Failed {
      var page := web.detail(c.url).value;
      var downloadPage := web.download(UrlJoin(FirstHref(page.downloadButtons).value)).value;
      var url := Absolute(FirstHref(downloadPage.directLinks).value);
      assert ReachesStream(c, web, page, url, web.stream(url).value);
    }
  }

  /** A file is written exactly when the chase reaches a stream whose declared length reads. */
  lemma FileOnlyAfterStream(c: Candidate, web: Web)
    ensures AttemptOf(c, web).written.Some? <==>
      exists page, url, stream :: ReachesStream(c, web, page, url, stream)
        && DeclaredSize(stream.contentLength).Some?
  {
    AttemptFollowsChase(c, web);
    if exists page, url, stream :: ReachesStream(c, web, page, url, stream) && DeclaredSize(stream.contentLength).Some? {
      var page, url, stream :| ReachesStream(c, web, page, url, stream) && DeclaredSize(stream.contentLength).Some?;
      AttemptAfterChase(c, web, page, url, stream);
    }
  }

  /** `get_app_info_and_download`, step by step. */
  method GetAppInfoAndDownload(c: Candidate, web: Web) returns (info: Option<AppInfo>, written: Option<FileWrite>)
    ensures Attempt(info, written) == AttemptOf(c, web)
  {
    var page := web.detail(c.url);
    if page.None? {
      return None, None;
    }
    var href := FindLink(page.value.downloadButtons);
    if href.None? {
      return None, None;
    }
    var downloadPage := web.download(UrlJoin(href.value));
    if downloadPage.None? {
      return None, None;
    }
    var direct := FindLink(downloadPage.value.directLinks);
    if direct.None? {
      return None, None;
    }
    var url := Absolute(direct.value);
    var response := web.stream(url);
    if response.None? {
      return None, None;
    }
    var stream := response.value;
    var kind := Classify(stream.contentDisposition, url);
    var total := DeclaredSize(stream.contentLength);
    if total.None? {
      return None, None;
    }
    var name := Filename(c.title, kind);
    var file, downloaded, reports := WriteChunks(stream.chunks, total.value);
    written := Some(FileWrite(name, file));
    if !stream.completes {
      return None, written;
    }
    info := Some(AppInfo(c.title, Version(page.value), total.value, SizeLabel(total.value),
                         Developer(page.value), name, kind, IconUrl(page.value), HasObb(kind)));
  }

  // ----- the request -----

  /** The request's outcome: the application found, or one of the two error messages. */
  datatype ResolutionResult = Success(info: AppInfo) | Failure(error: string)

  const NotFoundOpening: string := "لم يتم العثور على '"
  const NotFoundClosing: string := "' في APKPure.\n\nجرب:\n• استخدام الاسم الكامل للتطبيق\n• التحقق من الإملاء\n• كن أكثر تحديداً"
  const AllFailedOpening: string := "تم العثور على تطبيقات تطابق '"
  const AllFailedClosing: string := "' لكن فشل تحميلها.\n\nالتطبيقات قد لا تكون متاحة أو حدث خطأ في التحميل."

  function NotFoundMessage(appName: string): string {
    NotFoundOpening + appName + NotFoundClosing
  }

  function AllFailedMessage(appName: string): string {
    AllFailedOpening + appName + AllFailedClosing
  }

  /** The two error messages can never be confused, whatever the names in them. */
  lemma MessagesDistinct(a: string, b: string)
    ensures NotFoundMessage(a) != AllFailedMessage(b)
  {
    assert NotFoundMessage(a)[0] != AllFailedMessage(b)[0];
  }

  /** The downloads directory: file name to contents. */
  type Directory = map<string, Bytes>

  function Store(dir: Directory, written: Option<FileWrite>): Directory {
    match written
    case None => dir
    case Some(w) => dir[w.name := w.contents]
  }

  /** Try the candidates in order with `attempt`; the first success ends the search. */
  function TryInOrder(candidates: seq<Candidate>, attempt: Candidate -> Attempt, dir: Directory): (r: (Option<AppInfo>, Directory))
    ensures r.0.None? ==> forall j :: 0 <= j < |candidates| ==> attempt(candidates[j]).info.None?
    decreases |candidates|
  {
    if |candidates| == 0 then (None, dir)
    else
      var first := attempt(candidates[0]);
      var dir' := Store(dir, first.written);
      if first.info.Some? then (first.info, dir')
      else TryInOrder(candidates[1..], attempt, dir')
  }

  /** The directory after the attempts on `candidates`, in order. */
  function StoreAll(candidates: seq<Candidate>, attempt: Candidate -> Attempt, dir: Directory): Directory
    decreases |candidates|
  {
    if |candidates| == 0 then dir
    else StoreAll(candidates[1..], attempt, Store(dir, attempt(candidates[0]).written))
  }

  /**
   * The first success wins: the result is that of the first candidate whose attempt
   * succeeds, every earlier one failed, and only the attempts up to it touched the
   * directory.
   */
  lemma {:induction false} TryInOrderFirstSuccess(candidates: seq<Candidate>, attempt: Candidate -> Attempt, dir: Directory)
    ensures var (info, dir') := TryInOrder(candidates, attempt, dir);
      info.Some? ==>
        exists i :: 0 <= i < |candidates|
          && attempt(candidates[i]).info == info
          && (forall j :: 0 <= j < i ==> attempt(candidates[j]).info.None?)
          && dir' == StoreAll(candidates[..i + 1], attempt, dir)
    decreases |candidates|
  {
    if |candidates| > 0 {
      var first := attempt(candidates[0]);
      var next := Store(dir, first.written);
      if first.info.Some? {
        assert candidates[..1] == [candidates[0]];
        assert StoreAll(candidates[..1], attempt, dir) == StoreAll([], attempt, next);
      } else {
        var rest := candidates[1..];
        TryInOrderFirstSuccess(rest, attempt, next);
        var (info, dir') := TryInOrder(rest, attempt, next);
        if info.Some? {
          var i :| 0 <= i < |rest| && attempt(rest[i]).info == info
            && (forall j :: 0 <= j < i ==> attempt(rest[j]).info.None?)
            && dir' == StoreAll(rest[..i + 1], attempt, next);
          assert candidates[..i + 2][1..] == rest[..i + 1];
          assert attempt(candidates[i + 1]).info == info;
          forall j | 0 <= j < i + 1 ensures attempt(candidates[j]).info.None? {
            if j > 0 { assert candidates[j] == rest[j - 1]; }
          }
        }
      }
    }
  }

  /** When no candidate succeeds, every one of them was tried and left its file. */
  lemma {:induction false} AllFailuresTryEveryCandidate(candidates: seq<Candidate>, attempt: Candidate -> Attempt, dir: Directory)
    ensures var (info, dir') := TryInOrder(candidates, attempt, dir);
      info.None? ==> dir' == StoreAll(candidates, attempt, dir)
    decreases |candidates|
  {
    if |candidates| > 0 {
      AllFailuresTryEveryCandidate(candidates[1..], attempt, Store(dir, attempt(candidates[0]).written));
    }
  }

  /** The attempt function of a request: `get_app_info_and_download` against `web`. */
  function AttemptWith(web: Web): Candidate -> Attempt {
    (c: Candidate) => AttemptOf(c, web)
  }

  /**
   * `download_app`: a success needs a candidate to have been found, and a failure
   * carries one of the two messages.
   */
  function Resolve(appName: string, web: Web, dir: Directory): (r: (ResolutionResult, Directory))
    ensures r.0.Success? ==> Search(appName, web) != []
    ensures r.0.Failure? ==> r.0.error == NotFoundMessage(appName) || r.0.error == AllFailedMessage(appName)
  {
    var candidates := Search(appName, web);
    if |candidates| == 0 then (Failure(NotFoundMessage(appName)), dir)
    else
      match TryInOrder(candidates, AttemptWith(web), dir)
      case (Some(info), dir') => (Success(info), dir')
      case (None, dir') => (Failure(AllFailedMessage(appName)), dir')
  }

  /** "Not found" exactly when the search produced no candidate, and then nothing is written. */
  lemma NotFoundIffNoCandidates(appName: string, web: Web, dir: Directory)
    ensures Resolve(appName, web, dir).0 == Failure(NotFoundMessage(appName)) <==> Search(appName, web) == []
    ensures Search(appName, web) == [] ==> Resolve(appName, web, dir).1 == dir
  {
    if Search(appName, web) != [] && TryInOrder(Search(appName, web), AttemptWith(web), dir).0.None? {
      MessagesDistinct(appName, appName);
    }
  }

  /** "Found but failed" exactly when there were candidates and every one of them failed. */
  lemma AllFailedIffEveryAttemptFails(appName: string, web: Web, dir: Directory)
    ensures var candidates := Search(appName, web);
      Resolve(appName, web, dir).0 == Failure(AllFailedMessage(appName)) <==>
        candidates != [] && forall j :: 0 <= j < |candidates| ==> AttemptOf(candidates[j], web).info.None?
  {
    var candidates := Search(appName, web);
    TryInOrderFirstSuccess(candidates, AttemptWith(web), dir);
    if candidates == [] {
      MessagesDistinct(appName, appName);
    }
  }

  lemma {:induction false} StoreAllSnoc(candidates: seq<Candidate>, c: Candidate, attempt: Candidate -> Attempt, dir: Directory)
    ensures StoreAll(candidates + [c], attempt, dir) == Store(StoreAll(candidates, attempt, dir), attempt(c).written)
    decreases |candidates|
  {
    if |candidates| == 0 {
      assert candidates + [c] == [c];
    } else {
      assert (candidates + [c])[1..] == candidates[1..] + [c];
      StoreAllSnoc(candidates[1..], c, attempt, Store(dir, attempt(candidates[0]).written));
    }
  }

  /**
   * The first success of a run of attempts, and the file it wrote is in the directory
   * the run leaves behind.
   */
  lemma FirstSuccessIsStored(candidates: seq<Candidate>, attempt: Candidate -> Attempt, dir: Directory)
    requires TryInOrder(candidates, attempt, dir).0.Some?
    ensures var (found, dir') := TryInOrder(candidates, attempt, dir);
      exists i :: 0 <= i < |candidates|
        && attempt(candidates[i]).info == found
        && (forall j :: 0 <= j < i ==> attempt(candidates[j]).info.None?)
        && dir' == StoreAll(candidates[..i + 1], attempt, dir)
        && (attempt(candidates[i]).written.Some? ==>
              var w := attempt(candidates[i]).written.value;
              w.name in dir' && dir'[w.name] == w.contents)
  {
    TryInOrderFirstSuccess(candidates, attempt, dir);
    var (found, dir') := TryInOrder(candidates, attempt, dir);
    var i :| 0 <= i < |candidates| && attempt(candidates[i]).info == found
      && (forall j :: 0 <= j < i ==> attempt(candidates[j]).info.None?)
      && dir' == StoreAll(candidates[..i + 1], attempt, dir);
    assert candidates[..i + 1] == candidates[..i] + [candidates[i]];
    if attempt(candidates[i]).written.Some? {
      StoredByLast(candidates[..i], candidates[i], attempt, dir);
    }
  }

  /** The last attempt's file is in the directory a run of attempts leaves behind. */
  lemma StoredByLast(candidates: seq<Candidate>, c: Candidate, attempt: Candidate -> Attempt, dir: Directory)
    requires attempt(c).written.Some?
    ensures var w := attempt(c).written.value;
      w.name in StoreAll(candidates + [c], attempt, dir)
      && StoreAll(candidates + [c], attempt, dir)[w.name] == w.contents
  {
    StoreAllSnoc(candidates, c, attempt, dir);
  }

  /**
   * A success is the first candidate whose attempt succeeded, and the directory then
   * holds its package under the reported file name.
   */
  lemma SuccessIsFirstWorkingCandidate(appName: string, web: Web, dir: Directory)
    requires Resolve(appName, web, dir).0.Success?
    ensures var info := Resolve(appName, web, dir).0.info;
      var candidates := Search(appName, web);
      exists i :: 0 <= i < |candidates|
        && AttemptOf(candidates[i], web).info == Some(info)
        && (forall j :: 0 <= j < i ==> AttemptOf(candidates[j], web).info.None?)
        && Resolve(appName, web, dir).1 == StoreAll(candidates[..i + 1], AttemptWith(web), dir)
        && info.filename in Resolve(appName, web, dir).1
        && Some(FileWrite(info.filename, Resolve(appName, web, dir).1[info.filename])) == AttemptOf(candidates[i], web).written
  {
    var candidates := Search(appName, web);
    var attempt := AttemptWith(web);
    var (found, dir') := TryInOrder(candidates, attempt, dir);
    assert Resolve(appName, web, dir) == (Success(found.value), dir');
    FirstSuccessIsStored(candidates, attempt, dir);
    var i :| 0 <= i < |candidates| && attempt(candidates[i]).info == found
      && (forall j :: 0 <= j < i ==> attempt(candidates[j]).info.None?)
      && dir' == StoreAll(candidates[..i + 1], attempt, dir)
      && (attempt(candidates[i]).written.Some? ==>
            var w := attempt(candidates[i]).written.value;
            w.name in dir' && dir'[w.name] == w.contents);
    assert attempt(candidates[i]) == AttemptOf(candidates[i], web);
  }

  /** `download_app`'s loop: try each candidate, return the first result. */
  method DownloadApp(appName: string, web: Web, dir: Directory) returns (result: ResolutionResult, dir': Directory)
    ensures (result, dir') == Resolve(appName, web, dir)
  {
    var candidates := SearchApkpure(appName, web);
    dir' := dir;
    if |candidates| == 0 {
      return Failure(NotFoundMessage(appName)), dir';
    }
    var i := 0;
    while i < |candidates|
      invariant 0 <= i <= |candidates|
      invariant TryInOrder(candidates, AttemptWith(web), dir) == TryInOrder(candidates[i..], AttemptWith(web), dir')
    {
      var info, written := GetAppInfoAndDownload(candidates[i], web);
      dir' := Store(dir', written);
      if info.Some? {
        return Success(info.value), dir';
      }
      assert candidates[i..][1..] == candidates[i + 1..];
      i := i + 1;
    }
    return Failure(AllFailedMessage(appName)), dir';
  }
}
