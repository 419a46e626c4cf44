/**
 * The bot's `messages.upsert` handler, reduced to its decisions: which incoming
 * messages are dropped, which get the welcome text, which start a search and with what
 * query; and, once the scraper has answered, which reply is sent.
 */
module BotMessages {
  import opened Common
  import opened Text
  import opened PackageFetcher
  import opened Orchestrator

  /** The first content key of a message and its text ("" when the field is empty). */
  datatype MessageBody = Conversation(text: string) | ExtendedText(text: string) | OtherContent

  datatype IncomingMessage = IncomingMessage(fromMe: bool, message: Option<MessageBody>)

  /** What the handler does with a batch. */
  datatype Action = Ignore | Welcome | SearchApp(query: string)

  /** `textMessage`: the text of a conversation or extended-text message, "" otherwise. */
  function TextOf(body: MessageBody): string {
    match body
    case Conversation(text) => text
    case ExtendedText(text) => text
    case OtherContent => ""
  }

  /** Decryption noise the handler refuses to treat as a request; never an empty text. */
  function IsNoise(text: string): (noisy: bool)
    ensures noisy ==> |text| >= |"decrypt"|
  {
    Contains(text, "Session error") || Contains(text, "decrypt")
  }

  const Greetings: set<string> := {"hi", "hello", "السلام عليكم", "مرحبا"}

  /** One of the greetings, in any letter case; a greeting is never taken for noise. */
  function IsGreeting(text: string): (greeting: bool)
    ensures greeting ==> !IsNoise(text)
  {
    if Lower(text) in Greetings then NoGreetingIsNoise(text); true else false
  }

  /** Not a `/` command and not blank: some character is not whitespace. */
  function IsSearchRequest(text: string): (request: bool)
    ensures request <==> !StartsWith(text, "/") && exists k :: 0 <= k < |text| && !IsJsSpace(text[k])
  {
    StripEmptyIffBlank(text, IsJsSpace);
    !StartsWith(text, "/") && JsTrim(text) != ""
  }

  /**
   * The handler's decision for a batch, given the connection flags at the time it runs.
   * Only the first message of a batch is looked at.
   */
  function Triage(isConnected: bool, isReconnecting: bool, batch: seq<IncomingMessage>): (action: Action)
    ensures !isConnected || isReconnecting ==> action == Ignore
    ensures batch == [] ==> action == Ignore
  {
    if !isConnected || isReconnecting then Ignore
    else if |batch| == 0 then Ignore
    else
      var m := batch[0];
      if m.message.None? || m.fromMe then Ignore
      else
        var text := TextOf(m.message.value);
        if text == "" then Ignore
        else if IsNoise(text) then Ignore
        else if IsGreeting(text) then Welcome
        else if IsSearchRequest(text) then SearchApp(JsTrim(text))
        else Ignore
  }

  /** The text the handler reads from the first message of a batch. */
  function FirstText(batch: seq<IncomingMessage>): string {
    if |batch| > 0 && batch[0].message.Some? then TextOf(batch[0].message.value) else ""
  }

  /**
   * A search starts exactly for a connected bot and a first message from someone else
   * whose text is neither noise nor a greeting, does not start with '/' and is not
   * blank; the query is that text without surrounding whitespace, and never blank.
   */
  lemma SearchTrigger(isConnected: bool, isReconnecting: bool, batch: seq<IncomingMessage>)
    ensures var action := Triage(isConnected, isReconnecting, batch);
      var text := FirstText(batch);
      && (action.SearchApp? <==>
            isConnected && !isReconnecting && |batch| > 0 && !batch[0].fromMe
            && !IsNoise(text) && !IsGreeting(text) && IsSearchRequest(text))
      && (action.SearchApp? ==>
            action.query != "" && action.query == JsTrim(text)
            && !IsJsSpace(action.query[0]) && !IsJsSpace(action.query[|action.query| - 1]))
  {
    var text := FirstText(batch);
    if JsTrim(text) != "" && text == "" {
      StripEmptyIffBlank(text, IsJsSpace);
    }
  }

  /**
   * The handler acts only on someone else's message with non-empty text that is not
   * noise, and only while connected and not reconnecting; in particular its own
   * messages and decryption noise are always ignored.
   */
  lemma ActionNeedsForeignText(isConnected: bool, isReconnecting: bool, batch: seq<IncomingMessage>)
    ensures var text := FirstText(batch);
      Triage(isConnected, isReconnecting, batch) != Ignore ==>
        && isConnected && !isReconnecting && |batch| > 0 && batch[0].message.Some? && !batch[0].fromMe
        && text != "" && !IsNoise(text)
    ensures IsNoise(FirstText(batch)) ==> Triage(isConnected, isReconnecting, batch) == Ignore
    ensures |batch| > 0 && batch[0].fromMe ==> Triage(isConnected, isReconnecting, batch) == Ignore
  {
    if IsNoise(FirstText(batch)) && |batch| > 0 && batch[0].message.Some? {
      assert FirstText(batch) == TextOf(batch[0].message.value);
    }
  }

  /**
   * The welcome text is sent exactly for a connected bot and a first message from
   * someone else whose non-empty text is a greeting and not noise.
   */
  lemma WelcomeTrigger(isConnected: bool, isReconnecting: bool, batch: seq<IncomingMessage>)
    ensures var text := FirstText(batch);
      Triage(isConnected, isReconnecting, batch) == Welcome <==>
        && isConnected && !isReconnecting && |batch| > 0 && batch[0].message.Some? && !batch[0].fromMe
        && text != "" && !IsNoise(text) && IsGreeting(text)
  {
    ActionNeedsForeignText(isConnected, isReconnecting, batch);
  }

  const ArabicGreeting: string := "السلام عليكم"

  /** No greeting contains either noise marker, so a greeting is never dropped as noise. */
  lemma NoGreetingIsNoise(text: string)
    requires Lower(text) in Greetings
    ensures !IsNoise(text)
  {
    var lower := Lower(text);
    assert |text| == |lower| <= |ArabicGreeting|;
    assert forall k :: 0 <= k < |lower| ==> lower[k] != 'd';
    forall i | 0 <= i <= |text| - 7 ensures !OccursAt(text, "decrypt", i) {
      assert lower[i] == LowerChar(text[i]);
      assert text[i..i + 7][0] == text[i];
    }
  }

  /** A greeting gets the welcome text and never starts a search. */
  lemma GreetingNeverSearches(isConnected: bool, isReconnecting: bool, batch: seq<IncomingMessage>)
    requires IsGreeting(FirstText(batch))
    ensures !Triage(isConnected, isReconnecting, batch).SearchApp?
    ensures isConnected && !isReconnecting && !batch[0].fromMe && batch[0].message.Some? ==>
              Triage(isConnected, isReconnecting, batch) == Welcome
  {
  }

  /** A command typed after a space is not recognised as a command: " /help" searches for "/help". */
  lemma IndentedCommandSearches()
    ensures Triage(true, false, [IncomingMessage(false, Some(Conversation(" /help")))]) == SearchApp("/help")
  {
    var text := " /help";
    assert !IsNoise(text);
    assert !IsGreeting(text) by {
      assert |Lower(text)| == 6;
    }
    assert LeadingSpaces(text[1..], IsJsSpace) == 0;
    assert LeadingSpaces(text, IsJsSpace) == 1;
    assert EndBefore(text, IsJsSpace, 1, |text|) == |text|;
    assert JsTrim(text) == text[1..];
    assert !StartsWith(text, "/");
  }

  // ----- replies -----

  const MaxFileSizeMB: nat := 2048

  /** `result.sizeMB && result.sizeMB > MAX_FILE_SIZE_MB`, with `sizeMB` the declared bytes over 2**20. */
  predicate ExceedsLimit(sizeBytes: int) {
    sizeBytes > 0 && sizeBytes > MaxFileSizeMB * BytesPerMB
  }

  /** The limit is 2 GiB of declared bytes. */
  lemma LimitIsTwoGiB(sizeBytes: int)
    ensures ExceedsLimit(sizeBytes) <==> sizeBytes > 0x8000_0000
  {
  }

  /** The note appended to the package description, naming the installer tool. */
  function NoteFor(tool: string): string {
    "\n⚠️ يحتاج " + tool + " للتثبيت"
  }

  /** The install note: the tool to install bundles with, nothing for a plain package. */
  function InstallNote(kind: PackageKind): (note: string)
    ensures note == "" <==> kind == Apk
  {
    FileTypeNames(kind);
    var fileType := FileType(kind);
    if fileType == "XAPK" || fileType == "APKS" then
      NoteFor(if fileType == "XAPK" then "ZArchiver" else "SAI")
    else ""
  }

  /** ZArchiver for XAPK, SAI for APKS, nothing for APK. */
  lemma InstallNoteByKind(kind: PackageKind)
    ensures InstallNote(kind) == match kind
      case Apk => ""
      case Xapk => NoteFor("ZArchiver")
      case Apks => NoteFor("SAI")
  {
    FileTypeNames(kind);
  }

  /** How the scraper process ended, as the bot sees it. */
  datatype ScraperOutcome =
    | Crashed            // non-zero exit, timeout, spawn error or unparsable output
    | Finished(result: ResolutionResult)

  datatype Reply =
    | GenericError                    // the catch-all error text
    | ErrorText(message: string)      // the scraper's error message
    | Silent                          // an error while the connection is down: nothing is sent
    | TooLarge(name: string, size: string)
    | SendPackage(info: AppInfo, installNote: string)

  /** The reply to a search, given the connection flags when the scraper answers. */
  function ReplyFor(outcome: ScraperOutcome, isConnected: bool, isReconnecting: bool): (reply: Reply)
    ensures reply.SendPackage? ==> outcome.Finished? && outcome.result.Success?
    ensures outcome.Finished? && outcome.result.Failure? && !(isConnected && !isReconnecting) ==> reply == Silent
    ensures outcome.Finished? && outcome.result.Failure? && isConnected && !isReconnecting ==>
              reply == ErrorText(outcome.result.error)
    ensures outcome == Crashed ==> reply == GenericError
  {
    match outcome
    case Crashed => GenericError
    case Finished(Failure(message)) =>
      if isConnected && !isReconnecting then ErrorText(message) else Silent
    case Finished(Success(info)) =>
      if ExceedsLimit(info.sizeBytes) then TooLarge(info.name, info.size)
      else SendPackage(info, InstallNote(info.kind))
  }

  /** An oversized package is only reported, never uploaded; every other success is uploaded with its note. */
  lemma SizeLimitBlocksUpload(info: AppInfo, isConnected: bool, isReconnecting: bool)
    ensures var reply := ReplyFor(Finished(Success(info)), isConnected, isReconnecting);
      && (info.sizeBytes > 0x8000_0000 <==> reply.TooLarge?)
      && (reply.SendPackage? <==> info.sizeBytes <= 0x8000_0000)
      && (reply.SendPackage? ==> reply.info == info && (reply.installNote == "" <==> info.kind == Apk))
  {
    InstallNoteByKind(info.kind);
  }
}
