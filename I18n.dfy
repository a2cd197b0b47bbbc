/**
 * Message lookup (`tr`): a message key is looked up in the table of the
 * selected language, then in the English table, and is shown as the key
 * itself when neither table has a non-empty text for it. The text found is
 * then formatted with the call's keyword arguments, and kept as it is when
 * formatting raises.
 */
module I18n {
  import opened Wrappers

  /** The loaded translations: language code to a table of key to text. */
  type Catalog = map<string, map<string, string>>

  /** The language looked up when the selected one has no text. */
  const English: string := "en"

  /**
   * The text `lang` gives `key`, when it is non-empty: a missing or empty
   * table, a missing key and an empty text all count as none.
   */
  function Entry(cache: Catalog, lang: string, key: string): Option<string> {
    if lang in cache && key in cache[lang] && cache[lang][key] != [] then Some(cache[lang][key]) else None
  }

  /** The text shown for `key` before formatting: the selected language, then English, then the key. */
  function Template(cache: Catalog, key: string, lang: string): (r: string)
    ensures key != [] ==> r != []
    ensures r == key || Entry(cache, lang, key) == Some(r) || Entry(cache, English, key) == Some(r)
    ensures Entry(cache, lang, key).Some? ==> r == Entry(cache, lang, key).value
    ensures Entry(cache, lang, key).None? && Entry(cache, English, key).Some? ==> r == Entry(cache, English, key).value
    ensures Entry(cache, lang, key).None? && Entry(cache, English, key).None? ==> r == key
  {
    match Entry(cache, lang, key)
    case Some(s) => s
    case None =>
      match Entry(cache, English, key)
      case Some(s) => s
      case None => key
  }

  /**
   * `tr(key, lang, **kwargs)`. `format` stands for `str.format` with the
   * call's keyword arguments: it gives the formatted text, or `None` when
   * formatting raises.
   */
  function Tr(cache: Catalog, key: string, lang: string, format: string -> Option<string>): string {
    var s := Template(cache, key, lang);
    match format(s)
    case Some(t) => t
    case None => s
  }

  /**
   * A message is never blank: for a non-empty key, whatever `format` does
   * to a non-empty text (raise, or give a non-empty text), `tr` shows a
   * non-empty text.
   */
  lemma TrNeverBlank(cache: Catalog, key: string, lang: string, format: string -> Option<string>)
    requires key != []
    requires forall s: string :: s != [] && format(s).Some? ==> format(s).value != []
    ensures Tr(cache, key, lang, format) != []
  {
  }

  /**
   * A message with no fields to fill: when `format` leaves a text as it
   * is, `tr` shows the selected language's text, else the English text,
   * else the key.
   */
  lemma TrWithoutFields(cache: Catalog, key: string, lang: string, format: string -> Option<string>)
    requires forall s: string :: format(s) == Some(s)
    ensures Tr(cache, key, lang, format) == Template(cache, key, lang)
    ensures Tr(cache, key, lang, format) == key
        || (lang in cache && key in cache[lang] && Tr(cache, key, lang, format) == cache[lang][key])
        || (English in cache && key in cache[English] && Tr(cache, key, lang, format) == cache[English][key])
  {
  }

  /** Selecting English is the same as the English fallback: the English text, else the key. */
  lemma EnglishSelected(cache: Catalog, key: string)
    ensures Template(cache, key, English) == if Entry(cache, English, key).Some? then Entry(cache, English, key).value else key
  {
  }

  /** A language with no table at all behaves as if English had been selected. */
  lemma UnknownLanguageFallsBack(cache: Catalog, key: string, lang: string)
    requires lang !in cache
    ensures Template(cache, key, lang) == Template(cache, key, English)
  {
  }

  /** Adding a table for another language changes no text shown for `lang`. */
  lemma OtherLanguageIgnored(cache: Catalog, key: string, lang: string, other: string, table: map<string, string>)
    requires other != lang && other != English
    ensures Template(cache[other := table], key, lang) == Template(cache, key, lang)
  {
  }
}
