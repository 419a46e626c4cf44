/**
 * Query normalisation (`translate_to_english`): text containing a character of the
 * Arabic block is sent to the translation service; the service's first segment
 * replaces it only on a 200 answer of the expected shape.
 */
module QueryNormalizer {
  import opened Common
  import opened Pages

  predicate IsArabic(c: char) { '\U{0600}' <= c <= '\U{06FF}' }

  /** `re.search(r'[؀-ۿ]', text)` finds something. */
  predicate HasArabic(text: string) {
    exists i | 0 <= i < |text| :: IsArabic(text[i])
  }

  /**
   * The translation is consulted only for Arabic text, and its output is used only when
   * the service answered 200 with a readable first segment; in every other case the
   * text comes back as it was.
   */
  function TranslateToEnglish(text: string, translate: string -> TranslationReply): (r: string)
    ensures !HasArabic(text) ==> r == text
    ensures r != text ==> HasArabic(text) && translate(text) == Reply(200, Some(r))
    ensures (HasArabic(text) && translate(text).Reply? && translate(text).status == 200
             && translate(text).firstSegment.Some?) ==> r == translate(text).firstSegment.value
  {
    if HasArabic(text) then
      match translate(text)
      case Reply(200, Some(translated)) => translated
      case _ => text
    else text
  }

  /** A failed translation is never fatal and never empties a non-empty query. */
  lemma FailedTranslationKeepsQuery(text: string, translate: string -> TranslationReply)
    requires translate(text).NoReply? || translate(text).status != 200 || translate(text).firstSegment.None?
    ensures TranslateToEnglish(text, translate) == text
    ensures text != "" ==> TranslateToEnglish(text, translate) != ""
  {
  }
}
