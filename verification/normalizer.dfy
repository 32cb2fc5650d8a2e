/** Building the public item from a parsed entry (`to_news_item`). */
module Normalizer {
  import opened Wrappers
  import opened Models
  import opened Parser

  /** The error `to_news_item` raises. */
  datatype BuildError = MissingRequiredField

  /** The source an item gets: the entry's own unless it is empty. */
  function SourceOrUnknown(source: string): (s: string)
    ensures s != ""
    ensures source != "" ==> s == source
    ensures source == "" ==> s == UnknownSource
  {
    if source != "" then source else UnknownSource
  }

  /**
   * `to_news_item`: fails when the link is empty or the date is absent;
   * otherwise copies every field, defaulting an empty source to "unknown".
   */
  function ToNewsItem(rec: Record): (r: Result<NewsItem, BuildError>)
    ensures r.Failure? <==> rec.link == "" || rec.publishedAt.None?
    ensures r.Success? ==> HasRequiredFields(r.value)
    ensures r.Success? ==> r.value.publishedAt == rec.publishedAt.value
  {
    if rec.link == "" || rec.publishedAt.None? then Failure(MissingRequiredField)
    else Success(NewsItem(
      title := rec.title,
      summary := rec.summary,
      link := rec.link,
      source := SourceOrUnknown(rec.source),
      publishedAt := rec.publishedAt.value,
      language := rec.language,
      category := rec.category,
      guid := rec.guid))
  }

  /** The entry an item describes: the inverse direction of `ToNewsItem`. */
  function ToRecord(it: NewsItem): Record {
    Record(it.title, it.summary, it.link, it.source, Some(it.publishedAt), it.language, it.category, it.guid)
  }

  /**
   * A built item carries every field of its entry verbatim, except that an
   * empty source becomes "unknown".
   */
  lemma BuildPreservesFields(rec: Record)
    requires ToNewsItem(rec).Success?
    ensures ToRecord(ToNewsItem(rec).value) == rec.(source := SourceOrUnknown(rec.source))
  {
  }

  /** Every item with a link and a source is rebuilt unchanged from its own entry. */
  lemma BuildRoundTrip(it: NewsItem)
    requires HasRequiredFields(it)
    ensures ToNewsItem(ToRecord(it)) == Success(it)
  {
  }
}
