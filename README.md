# WhatsApp APK bot — resolution pipeline and bot state machine in Dafny

The system is a WhatsApp bot. A user sends an application name; the bot runs a
scraper that finds the application on the APKPure catalogue (`https://apkpure.com`),
downloads its package (APK, XAPK or APKS) into a `downloads` directory and reports
the package's metadata. The bot then uploads the file, or explains why it will not.

This project models two parts of it.

The scraper's resolution pipeline (`scraper.py`):

- the Arabic-to-English translation decision for the query;
- search-result extraction, with its four-step selector chain, the cap of five
  results, the `apkpure.com` filter on the joined URL and the three-step title fallback;
- detail-page metadata: the icon with its four sources and width-marker removal,
  the version and the developer;
- the two ordered selector chains that find the download page and the direct link,
  with `urljoin` against the catalogue's base URL;
- package-kind sniffing from the `Content-Disposition` header and the URL, `hasOBB` and `fileType`;
- filename sanitisation;
- the chunked download loop with its byte counter and progress reports;
- the `"%.2f MB"` size label taken from the declared content length;
- `download_app`, which tries the candidates in ranking order and has two error messages.

The bot's connection state machine and message handling (`bot.js`):

- the process-level flags `isConnected`, `isReconnecting`, `reconnectAttempts` and
  `pairingCodeRequested`;
- the guard against overlapping connection attempts;
- the `connection.update` handler, with a back-off of `min(n * 3000, 15000)` ms, a cap
  of ten attempts and a thirty-second restart;
- triage of incoming messages: dropped, welcomed, or searched for;
- the reply rules: the 2048 MB upload limit and the install note per package type.

HTML pages are modelled by what the parser's lookups return. HTTP requests are total
functions inside a `Web` value that return `None` for any failure. The downloads
directory is a map from file names to byte sequences.

Modules, in dependency order:

- `Common` (`common.dfy`): `Option`, bytes, and the first-usable-of-a-chain combinator.
- `Text` (`text.dfy`): substring tests, ASCII lower/upper case, `str.strip`/`String.trim`,
  and leftmost non-overlapping deletion, which models `re.sub(p, '', s)` and `str.replace(p, '')`.
- `Urls` (`urls.dfy`): `urljoin` against the catalogue's base URL.
- `Pages` (`pages.dfy`): page, stream and translation-reply values; the `Web` record.
- `QueryNormalizer`, `SearchResolver`, `LinkResolver`, `PackageFetcher` and
  `Orchestrator`: the scraper, stage by stage.
- `BotMessages` and `BotConnection`: the bot.

## Model

| member | source | states |
|---|---|---|
| Common.FirstUsable | scraper.py:174-177 | The chosen index is usable and every earlier element is not; `None` exactly when no element is usable. Every fallback chain in the scraper is this rule. |
| QueryNormalizer.TranslateToEnglish | scraper.py:15-42 | Text without a character in U+0600..U+06FF is returned unchanged. Text with one, answered with status 200 and a readable first segment, becomes that segment. The result differs from the input only in that case. |
| QueryNormalizer.FailedTranslationKeepsQuery | scraper.py:33-42 | A missing reply, a non-200 status or an unreadable first segment leaves the query as it was, so a non-empty query stays non-empty. |
| Urls.UrlJoin | scraper.py:84 | The joined URL is never empty. Scheme and host are read after the leading controls and spaces are dropped. A reference with a scheme other than `https` is returned as given. A reference whose remainder after an optional `https:` names a host after `//` becomes `https:` followed by that remainder. Any other reference starts with `https://apkpure.com`. |
| Urls.SameSchemeIsRelative | scraper.py:84 | `https:` followed by a scheme-less reference is resolved as that reference relative to the base, because `urljoin` treats a same-scheme URL without a host as relative. When the reference does not start with a control or space, this is exactly how the reference alone joins: `https:foo` joins to the catalogue page `foo`. |
| Urls.PaddingIgnored | scraper.py:84 | Leading controls and spaces change neither the scheme, the host nor the joined URL; only a reference with a foreign scheme is returned with them kept. So ` //evil.com/x` leaves the catalogue just as `//evil.com/x` does. |
| Urls.RelativeStaysOnCatalog | scraper.py:84-86 | A reference that, after its leading controls and spaces, names no other origin (no foreign scheme, no `//host`) always passes the `'apkpure.com' in app_url` filter. |
| Urls.Absolute | scraper.py:149-150 | A URL starting with `http` is kept; any other URL is joined to the base. |
| Urls.AbsoluteStartsWithHttp | scraper.py:209-211 | For a reference without a foreign scheme, or one starting with `http`, the final URL starts with `http`. |
| SearchResolver.MatchedItems | scraper.py:64-77 | The items come from the first non-empty step of the chain `div.first`, `a.first-info`, `dl.search-dl`, the container's download links; there are none exactly when all four steps are empty. |
| SearchResolver.TitleIsFirstNonEmptySource | scraper.py:88-95 | The title is the first non-empty value among the link's `title`, the item's title element text and the link's own text, and "" only when all three are empty. |
| SearchResolver.CandidateOf | scraper.py:80-98 | An item without a link yields nothing. Every candidate kept has a non-empty title and a URL containing `apkpure.com`. |
| SearchResolver.CandidateOfLinkedItem | scraper.py:80-98 | An item with a link yields a candidate exactly when the joined `href` contains `apkpure.com` and the title is non-empty. The candidate is then that joined URL with that title. |
| SearchResolver.Candidates | scraper.py:79-98 | There are never more candidates than items. |
| SearchResolver.CandidatesAppend | scraper.py:79-98 | Extraction works item by item: the candidates of `a + b` are those of `a` followed by those of `b`. |
| SearchResolver.CandidatesFromItems | scraper.py:79-98 | There are never more candidates than items. Each one is valid and comes from one of the items. |
| SearchResolver.CandidatesComplete | scraper.py:79-98 | No item that yields a candidate is lost: its candidate is in the result. |
| SearchResolver.Capped | scraper.py:79 | Only a prefix of at most five items is examined, and exactly five when there are at least five. |
| SearchResolver.Search | scraper.py:44-105 | A search returns at most five candidates, all valid, and none when the search page could not be fetched. |
| SearchResolver.SearchIsListedCandidates | scraper.py:64-101 | With a search page, a candidate is returned exactly when one of the first five matched items yields it. |
| SearchResolver.CollectCandidates | scraper.py:79-101 | The loop over the capped items collects exactly their candidates, in order. |
| SearchResolver.SearchApkpure | scraper.py:44-105 | The search returns the specified candidates: at most five, all valid. |
| LinkResolver.DigitRun | scraper.py:147-148 | The run is the longest prefix of ASCII digits, as `\d+` matches greedily. |
| LinkResolver.IconUrl | scraper.py:124-150 | There is no icon exactly when none of the four sources has a non-empty attribute. |
| LinkResolver.IconSourcePriority | scraper.py:124-150 | The icon is the normalised value of the first source with a non-empty attribute. |
| LinkResolver.IconWithoutWidthMarkers | scraper.py:146-150 | A URL with no `/w/<digits>` or `=w<digits>` marker is only made absolute. |
| LinkResolver.IconWidthMarkerRemoved | scraper.py:147-148 | A URL with a width marker comes out strictly shorter, because the marker is removed. |
| LinkResolver.Version | scraper.py:152-157 | Without a version element the version is `Latest`. Otherwise it is the element's text with every `Version:` removed, then stripped. |
| LinkResolver.VersionFromElement | scraper.py:155-157 | A version read from the page never starts or ends with whitespace. Text without the label is only stripped. |
| LinkResolver.Developer | scraper.py:159-163 | Without an author element the developer is `Unknown`; otherwise it is the element's text. |
| LinkResolver.FirstHref | scraper.py:166-183 | The link is the `href` of the first selector whose anchor has a non-empty `href`, and is never empty; `None` (the soft failure) exactly when no selector yields one. |
| LinkResolver.LaterSelectorsIgnored | scraper.py:174-177 | Once a selector succeeds, what the later selectors would find does not matter. |
| LinkResolver.FindLink | scraper.py:174-177 | The loop with `break` finds the specified link. |
| LinkResolver.FirstUsableIsFirst | scraper.py:200-207 | If the anchor at `i` has an `href` and none before it does, that `href` is the direct link. |
| PackageFetcher.Classify | scraper.py:220-228 | XAPK exactly when `.xapk` occurs in the lower-cased disposition or URL. APKS exactly when it is not XAPK and `.apks` occurs in one of them. APK otherwise. |
| PackageFetcher.XapkDispositionWins | scraper.py:224-226 | A disposition naming `.xapk` makes the package XAPK, whatever the URL says. |
| PackageFetcher.FileTypeNames | scraper.py:264 | `fileType` is `APK`, `XAPK` or `APKS`; `hasOBB` holds exactly when it is `XAPK`. |
| PackageFetcher.SafeFilename | scraper.py:235 | Sanitising keeps the length. |
| PackageFetcher.SafeFilenameProperties | scraper.py:235 | Safe characters are kept and every other one becomes `_`. The result has only `[a-zA-Z0-9_-]`, and sanitising is idempotent. |
| PackageFetcher.FilenameLayout | scraper.py:234-236 | The file name is the sanitised title, then the extension's dot. |
| PackageFetcher.FilenameDeterminesKind | scraper.py:234-236 | Two downloads get the same file name only when their kinds and sanitised titles are equal. |
| PackageFetcher.FlattenAppend | scraper.py:245-249 | Writing chunk sequences one after another writes their concatenation. |
| PackageFetcher.FlattenLength | scraper.py:247-249 | The byte counter equals the number of bytes written. |
| PackageFetcher.ProgressMarksBounded | scraper.py:247-252 | Each progress report is positive and at most the bytes written. The last one equals the total. There are none exactly when nothing was written. |
| PackageFetcher.ProgressMarksIncreasing | scraper.py:246-252 | Progress reports strictly increase, because empty chunks are skipped. |
| PackageFetcher.WriteChunks | scraper.py:244-252 | The loop writes the concatenation of the chunks, counts its length, and reports progress after each non-empty chunk only when the declared size is positive. |
| PackageFetcher.RoundHalfEven | scraper.py:232-260 | The rounded value is one of the two integers around the exact quotient, within half a unit of it, and on an exact tie it is the even one. |
| PackageFetcher.SizeLabel | scraper.py:231-260 | The label is `Unknown` exactly when the declared size is not positive. |
| PackageFetcher.TenMegabytes | scraper.py:260 | 10485760 declared bytes are labelled `10.00 MB`. |
| Orchestrator.FetchPackage | scraper.py:217-267 | An unparsable declared length fails before any file is opened. Otherwise the file holds every streamed byte, a stream cut off leaves that file with no result, and a success names the file it wrote. |
| Orchestrator.FetchSuccessShape | scraper.py:217-267 | A success reports the candidate's title, the detail page's version, developer and icon, the sniffed kind, the file name made from title and kind, `hasOBB` for XAPK and the declared size with its label, and wrote every streamed byte to that file. |
| Orchestrator.AttemptOf | scraper.py:107-271 | A success wrote the file it reports, and an attempt that wrote no file is the soft failure. |
| Orchestrator.AttemptAfterChase | scraper.py:116-218 | Once the detail page, its first download button, the download page that button leads to, that page's first direct link made absolute, and the stream at that address are all obtained, the attempt is the fetch of that stream. |
| Orchestrator.AttemptFollowsChase | scraper.py:116-218 | An attempt that is not the soft failure followed the whole two-hop chase and is the fetch of the stream it reached. So a miss at any step fails the attempt with no file. |
| Orchestrator.FileOnlyAfterStream | scraper.py:116-245 | A file is written exactly when the chase reaches a stream whose declared length parses. |
| Orchestrator.GetAppInfoAndDownload | scraper.py:107-271 | The attempt, written step by step, returns the specified dictionary and file. |
| Orchestrator.MessagesDistinct | scraper.py:277-293 | The "not found" message and the "all failed" message are never equal. |
| Orchestrator.TryInOrder | scraper.py:282-290 | A run that returns no success tried every candidate, and every attempt failed. |
| Orchestrator.TryInOrderFirstSuccess | scraper.py:282-290 | A run that succeeds returns the first success. Every earlier attempt failed, and the directory holds the files written up to and including it. |
| Orchestrator.AllFailuresTryEveryCandidate | scraper.py:282-290 | A run with no success leaves the files of every attempt in the directory. |
| Orchestrator.Resolve | scraper.py:273-293 | A failure carries the "not found" or the "all failed" message, and a success needs a candidate from the search. |
| Orchestrator.NotFoundIffNoCandidates | scraper.py:275-280 | The "not found" error comes exactly when the search returned nothing, and then no file is written. |
| Orchestrator.AllFailedIffEveryAttemptFails | scraper.py:282-293 | The "all failed" error comes exactly when there were candidates and every attempt failed. |
| Orchestrator.StoreAllSnoc | scraper.py:282-290 | The files left by a run of attempts are those of the earlier attempts, updated with the last one's. |
| Orchestrator.StoredByLast | scraper.py:243-245 | The last attempt's file is in the directory afterwards, with the bytes that attempt wrote. |
| Orchestrator.FirstSuccessIsStored | scraper.py:282-290 | For any attempt function, a run that succeeds stops at the first success. Every earlier attempt failed, and the file of the successful attempt is in the directory afterwards. |
| Orchestrator.SuccessIsFirstWorkingCandidate | scraper.py:273-290 | A success comes from a searched candidate whose attempt succeeded, and every earlier candidate failed. The directory then holds that candidate's package under the reported file name. |
| Orchestrator.DownloadApp | scraper.py:273-293 | The loop over the candidates returns the specified result and directory. |
| BotMessages.Triage | bot.js:134-178 | Nothing happens while the bot is disconnected or reconnecting, or when the batch is empty. |
| BotMessages.SearchTrigger | bot.js:136-178 | A search starts exactly when the bot is connected and not reconnecting, the first message is from someone else, and its text is not noise, not a greeting, does not start with `/` and is not blank. The query is the trimmed text, never blank, with no whitespace at either end. |
| BotMessages.IsNoise | bot.js:159 | A text taken for noise is never empty: it holds at least `decrypt`'s seven characters. |
| BotMessages.ActionNeedsForeignText | bot.js:134-159 | The handler acts only on someone else's message with non-empty text that is not noise, and only while connected and not reconnecting. The bot's own messages and decryption noise are always ignored. |
| BotMessages.WelcomeTrigger | bot.js:134-175 | The welcome text is sent exactly when the bot is connected and not reconnecting, the first message is from someone else and has a body, and its text is non-empty, not noise, and a greeting. |
| BotMessages.IsGreeting | bot.js:163 | A greeting is never taken for noise. |
| BotMessages.NoGreetingIsNoise | bot.js:159-163 | No greeting contains `Session error` or `decrypt`. |
| BotMessages.IsSearchRequest | bot.js:177 | A text is a search request exactly when it does not start with `/` and some character is not whitespace. |
| BotMessages.GreetingNeverSearches | bot.js:163-175 | A greeting never starts a search. For a connected bot and someone else's message it gets the welcome text. |
| BotMessages.IndentedCommandSearches | bot.js:177-178 | Only a leading `/` marks a command: ` /help` searches for `/help`. |
| BotMessages.LimitIsTwoGiB | bot.js:217 | A package is too large exactly when its declared size exceeds 2^31 bytes. |
| BotMessages.InstallNote | bot.js:245-248 | The install note is empty exactly for APK. |
| BotMessages.InstallNoteByKind | bot.js:245-248 | The install note names ZArchiver for XAPK and SAI for APKS, and is empty for APK. |
| BotMessages.ReplyFor | bot.js:200-248 | A package is sent only for a successful result. A scraper error is relayed as its message while the connection is up, and nothing is sent while it is down. A crashed scraper always gets the generic error text. |
| BotMessages.SizeLimitBlocksUpload | bot.js:217-248 | A package over 2 GiB is reported as too large and never uploaded. Any other success is uploaded with its description, with an empty note exactly for APK. |
| BotConnection.BackoffDelay | bot.js:111-112 | The delay never exceeds 15 s, is at least 3 s after a counted attempt, and is a multiple of 3 s. |
| BotConnection.BackoffSchedule | bot.js:112 | The delay is 3 s per attempt up to the fifth attempt, then 15 s. |
| BotConnection.BackoffMonotone | bot.js:112 | The delay never shrinks as attempts grow. |
| BotConnection.PlanAfterClose | bot.js:103-118 | A non-logout close gives up exactly when ten attempts were already counted, with a 30 s restart. Otherwise it counts one more attempt, never past ten, and waits that attempt's back-off delay. |
| BotConnection.AttemptsSaturate | bot.js:103-111 | Closes in a row raise the counter one at a time until it stops at ten. |
| BotConnection.TenClosesWaitTwoMinutes | bot.js:103-118 | From a reset counter, the ten back-off waits before the cap add up to 120 s. |
| BotConnection.Bot.constructor | bot.js:35-39 | The bot starts disconnected, not reconnecting, with a zero counter, no pairing request and no timers. |
| BotConnection.Bot.Connect | bot.js:41-56 | A call while an attempt is under way does nothing. Otherwise it marks an attempt as under way and opens one new socket, unless loading the credentials or fetching the protocol version rejects. In that case the flag stays set and no socket is made, so later calls do nothing either. |
| BotConnection.Bot.OnConnectionUpdate | bot.js:72-129 | This is the whole handler. The pairing flag is set once for unregistered credentials, and without a phone number the handler stops there. A close disconnects: a logout exits; otherwise the bot gives up with a 30 s retry at the cap, or counts an attempt and schedules the back-off. An open connects, clears the reconnecting flag and resets the counter. The invariant (counter at most ten, zero while connected, every queued delay one the handler can schedule) is kept. |
| BotConnection.Bot.FireTimer | bot.js:107-118 | A back-off timer clears the reconnecting flag and then connects, so it opens a socket unless the connection setup rejects. The 30 s retry only connects, and only opens a socket if no attempt is under way and the setup succeeds. |
| BotConnection.Bot.OnMessages | bot.js:134-139 | The handler's decision is the triage on the current flags; every message is ignored while disconnected or reconnecting. |
| BotConnection.ElevenDropsReachTheCap | bot.js:95-119 | After a connect and eleven closes in a row, the counter is at ten and no attempt is under way. Ten back-off timers are queued, with delays `BackoffDelay(1..10)`, and then the 30 s retry. |

## Left out

- HTTP requests, timeouts, headers, HTML parsing and CSS-selector matching are not modelled. A page is modelled by what its lookups return, and every exception a request or a page lookup raises is a `None` from the `Web` functions.
- `quote()` escaping of the search query is left out. The search page is looked up by the translated query itself.
- `Urls.UrlJoin` follows `urljoin` for a base with an empty path: leading controls and spaces dropped, a foreign scheme, `https:` with or without a host, network-path, absolute-path, query, fragment and relative path. It does not remove `.`/`..` segments, collapse empty segments, re-normalise the result as `urlunparse` does, or delete tabs and newlines inside the reference.
- `Urls.UrlJoin` is total, but `urljoin` raises `ValueError` for a host with an unbalanced `[` or `]` (for example `//[x/app`). In `search_apkpure` that exception ends the whole search with no results, even when earlier items matched (scraper.py:103-105). In `get_app_info_and_download` it fails the attempt. The model joins such a reference like any other host.
- `QueryNormalizer.TranslateToEnglish`: a reply whose first segment is JSON `null` makes `translate_to_english` return `None`, and `quote(None)` then raises outside any handler (scraper.py:47), so the run ends with the script's error exit. The model treats such a reply as unreadable and keeps the query. The script's error exit is the bot's `Crashed` outcome.
- `LinkResolver.DigitRun`: `\d` in Python matches every Unicode decimal digit; the model matches ASCII digits only.
- `Text.Lower`: `str.lower()` and `toLowerCase()` are modelled for ASCII letters and U+212A KELVIN SIGN only; other Unicode case mappings are left out.
- `PackageFetcher.WriteChunks`: the progress percentage is a float; the model reports the byte count at each step instead.
- `PackageFetcher.SizeLabel`: the label is the exact `%.2f` rounding of the declared bytes over 2^20. Python's float division agrees only for sizes below 2^53 bytes.
- The `downloads` directory is a map. `makedirs`, partial writes and disk errors are left out.
- `main` (argument joining, JSON printing, exit codes) and the bot's `spawn`, 120 s timeout and JSON parsing are left out. Any of their failures is the `Crashed` outcome.
- The bot's `!result` branch (bot.js:203-207) is left out: the scraper always prints an object.
- Sending messages, reactions, icon downloads, the upload itself, its failure message and the five-second file deletions are left out.
- The pairing-code request and its failure are left out. So are the phone-number prompt, whose answer is a field of the update, and `creds.update`.
- `process.exit` after a logout ends the process. `BotConnection.Bot.OnConnectionUpdate` reports it in `exits` and the model stops there.
- Asynchronous interleavings are left out. Each handler and timer runs atomically: `connectToWhatsApp` awaits between setting `isReconnecting` and creating the socket, and events of the old socket during that await are not modelled.
- The re-check of the flags before a search (bot.js:183) is left out: it runs immediately after `Triage`'s own check with no await in between.
- The search filter is a substring test: `'apkpure.com' in app_url` (scraper.py:85) admits any URL that contains the text, not only the catalogue's domain. The model follows the code.
- The size the bot compares with its limit is the declared content length (scraper.py:231-232), not the byte count of the file written. The model follows the code.
