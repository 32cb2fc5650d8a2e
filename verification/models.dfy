/** The public record the pipeline returns (`NewsItem`). */
module Models {
  import opened Wrappers

  /**
   * A normalized news item. `publishedAt` is the publication instant as an
   * integer timestamp; the optional fields are `None` when the feed had none.
   */
  datatype NewsItem = NewsItem(
    title: string,
    summary: string,
    link: string,
    source: string,
    publishedAt: int,
    language: Option<string>,
    category: Option<string>,
    guid: Option<string>)

  /** The invariant every constructed item keeps: a link and a source. */
  predicate HasRequiredFields(it: NewsItem) {
    it.link != "" && it.source != ""
  }
}
