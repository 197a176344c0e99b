/**
 * The visit record of russ5/WebHistoryItem.swift: an immutable value whose
 * fields are all `let`. `UUID()` and `Date()`, the defaults of `id` and
 * `timestamp`, are calls into the platform, so both are supplied by the caller.
 */
module WebHistory {
  import opened Wrappers

  /** A `UUID`, kept opaque (its string form). */
  type Uuid = string
  /** A parsed `URL`, kept as its absolute string. */
  type Url = string
  /** A `Date`, kept as an instant on an integer clock. */
  type Date = int

  /**
   * The memberwise initializer: every optional field defaults to `nil`.
   * `timestamp` is name-only because the fields before it have defaults.
   */
  datatype WebHistoryItem = WebHistoryItem(
    id: Uuid,
    url: Url,
    title: Option<string> := None,
    nameonly timestamp: Date,
    pageDescription: Option<string> := None,
    previewImageURL: Option<Url> := None,
    faviconURL: Option<Url> := None,
    articleText: Option<string> := None)

  /** The initializer stores each argument unchanged in the field of the same name. */
  lemma InitStoresArguments(id: Uuid, url: Url, title: Option<string>, now: Date,
                            pageDescription: Option<string>, previewImageURL: Option<Url>,
                            faviconURL: Option<Url>, articleText: Option<string>)
    ensures var item := WebHistoryItem(id, url, title, timestamp := now,
                                       pageDescription := pageDescription,
                                       previewImageURL := previewImageURL,
                                       faviconURL := faviconURL, articleText := articleText);
            item.id == id && item.url == url && item.title == title && item.timestamp == now &&
            item.pageDescription == pageDescription && item.previewImageURL == previewImageURL &&
            item.faviconURL == faviconURL && item.articleText == articleText
  {
  }

  /** Omitted optional arguments leave the record's optional fields `nil`. */
  lemma InitDefaults(id: Uuid, url: Url, now: Date)
    ensures var item := WebHistoryItem(id, url, timestamp := now);
            item.title == None && item.pageDescription == None && item.previewImageURL == None &&
            item.faviconURL == None && item.articleText == None
  {
  }
}
