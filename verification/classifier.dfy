/**
 * The news classifier (`is_news_entry`): a structural gate every news
 * article must pass, then the optional user filters.
 */
module Classifier {
  import opened Wrappers
  import opened Text
  import opened Parser

  /** Feed-title words hinting at a news feed. They are declared but never consulted. */
  const FeedTitleHints: seq<string> := ["news", "press", "\U{BCF4}\U{B3C4}", "\U{C18D}\U{BCF4}", "\U{AE30}\U{C0AC}"]

  /** Category words hinting at a news section. Their check has no effect on the verdict. */
  const CategoryHints: seq<string> := ["politics", "economy", "society", "world", "it"]

  /** Title words that mark a non-article: "comment", "notice", "update", "update log". */
  const TitleExcludes: seq<string> :=
    ["\U{B313}\U{AE00}", "\U{ACF5}\U{C9C0}", "\U{C5C5}\U{B370}\U{C774}\U{D2B8}", "update log"]

  /** The shortest stripped title an article may have. */
  const MinTitleLength := 10

  /** The keyword arguments of `is_news_entry`; `None` means the filter was not given. */
  datatype Filters = Filters(
    language: Option<string>,
    categories: Option<seq<string>>,
    includeKeywords: Option<seq<string>>,
    excludeKeywords: Option<seq<string>>)

  const NoFilters := Filters(None, None, None, None)

  /** `_contains_any`: some keyword, lower-cased, occurs in the lower-cased text. */
  predicate ContainsAny(text: string, keywords: seq<string>)
    ensures |keywords| == 0 ==> !ContainsAny(text, keywords)
    ensures "" in keywords ==> ContainsAny(text, keywords)
    ensures ContainsAny(text, keywords) ==> exists k | k in keywords :: |k| <= |text|
  {
    exists k | k in keywords :: Contains(Lower(text), Lower(k))
  }

  /** The keyword test does not depend on the case of the text. */
  lemma ContainsAnyIgnoresCase(text: string, keywords: seq<string>)
    ensures ContainsAny(Lower(text), keywords) == ContainsAny(text, keywords)
  {
    LowerIdempotent(text);
  }

  /** Python's truthiness of an optional list: given and non-empty. */
  predicate Given(o: Option<seq<string>>) {
    o.Some? && |o.value| > 0
  }

  /** The set `{c.lower() for c in cs}`. */
  function LowerAll(cs: seq<string>): set<string> {
    set c | c in cs :: Lower(c)
  }

  // The entry's fields as the classifier reads them.

  function TitleOf(rec: Record): string { Strip(rec.title) }
  function SummaryOf(rec: Record): string { Strip(rec.summary) }
  function LinkOf(rec: Record): string { Strip(rec.link) }
  function CategoryOf(rec: Record): string { Strip(rec.category.GetOr("")) }
  /** The entry's language, stripped and lower-cased; "" stands for none. */
  function LanguageOf(rec: Record): string { Lower(Strip(rec.language.GetOr(""))) }

  /**
   * `is_news_entry`, check by check in the program's order; each failing
   * check rejects at once.
   */
  function IsNewsEntry(rec: Record, f: Filters): (accepted: bool)
    ensures accepted <==> Structural(rec) && PassesFilters(rec, f)
    ensures rec.publishedAt.None? ==> !accepted
    ensures LinkOf(rec) == "" ==> !accepted
    ensures |TitleOf(rec)| < MinTitleLength ==> !accepted
    ensures ContainsAny(TitleOf(rec), TitleExcludes) ==> !accepted
  {
    var title := TitleOf(rec);
    var summary := SummaryOf(rec);
    var link := LinkOf(rec);
    var category := CategoryOf(rec);
    var lang := LanguageOf(rec);
    if rec.publishedAt.None? then false
    else if link == "" then false
    else if |title| < MinTitleLength then false
    else if ContainsAny(title, TitleExcludes) then false
    else if Truthy(f.language) && lang != "" && lang != Lower(f.language.value) then false
    else if Given(f.categories) && category != "" && Lower(category) !in LowerAll(f.categories.value) then false
    else if Given(f.includeKeywords)
            && !(ContainsAny(title, f.includeKeywords.value) || ContainsAny(summary, f.includeKeywords.value))
    then false
    else if Given(f.excludeKeywords)
            && (ContainsAny(title, f.excludeKeywords.value) || ContainsAny(summary, f.excludeKeywords.value))
    then false
    else true
  }

  // The verdict as a conjunction of independent requirements.

  /** The structural gate: dated, linked, a long enough title, no excluded word. */
  predicate Structural(rec: Record) {
    && rec.publishedAt.Some?
    && LinkOf(rec) != ""
    && |TitleOf(rec)| >= MinTitleLength
    && forall k | k in TitleExcludes :: !Contains(Lower(TitleOf(rec)), Lower(k))
  }

  /** An entry without a language always matches; otherwise it must equal the wanted one, ignoring case. */
  predicate LanguageMatches(rec: Record, f: Filters) {
    !Truthy(f.language) || LanguageOf(rec) == "" || LanguageOf(rec) == Lower(f.language.value)
  }

  /** An entry without a category always matches; otherwise its category must be on the allow-list, ignoring case. */
  predicate CategoryMatches(rec: Record, f: Filters) {
    !Given(f.categories) || CategoryOf(rec) == ""
    || exists c | c in f.categories.value :: Lower(c) == Lower(CategoryOf(rec))
  }

  /** Some wanted keyword occurs in the title or the summary, ignoring case. */
  predicate IncludeMatches(rec: Record, f: Filters) {
    !Given(f.includeKeywords)
    || exists k | k in f.includeKeywords.value ::
         Contains(Lower(TitleOf(rec)), Lower(k)) || Contains(Lower(SummaryOf(rec)), Lower(k))
  }

  /** No unwanted keyword occurs in the title or the summary, ignoring case. */
  predicate ExcludeMatches(rec: Record, f: Filters) {
    !Given(f.excludeKeywords)
    || forall k | k in f.excludeKeywords.value ::
         !Contains(Lower(TitleOf(rec)), Lower(k)) && !Contains(Lower(SummaryOf(rec)), Lower(k))
  }

  predicate PassesFilters(rec: Record, f: Filters) {
    LanguageMatches(rec, f) && CategoryMatches(rec, f) && IncludeMatches(rec, f) && ExcludeMatches(rec, f)
  }

  /** An entry with no (or a blank) language is judged as if no language filter were given. */
  lemma NoLanguageNeverRejected(rec: Record, f: Filters)
    requires LanguageOf(rec) == ""
    ensures IsNewsEntry(rec, f) == IsNewsEntry(rec, f.(language := None))
  {
  }

  /** An entry with no (or a blank) category is judged as if no allow-list were given. */
  lemma NoCategoryNeverRejected(rec: Record, f: Filters)
    requires CategoryOf(rec) == ""
    ensures IsNewsEntry(rec, f) == IsNewsEntry(rec, f.(categories := None))
  {
  }

  /** An empty allow-list or keyword list counts as not given. */
  lemma EmptyListsDisableFilters(rec: Record, f: Filters)
    ensures IsNewsEntry(rec, f.(categories := Some([]))) == IsNewsEntry(rec, f.(categories := None))
    ensures IsNewsEntry(rec, f.(includeKeywords := Some([]))) == IsNewsEntry(rec, f.(includeKeywords := None))
    ensures IsNewsEntry(rec, f.(excludeKeywords := Some([]))) == IsNewsEntry(rec, f.(excludeKeywords := None))
  {
  }

  /** A filter can only narrow the verdict: whatever passes with filters passes without them. */
  lemma FiltersOnlyNarrow(rec: Record, f: Filters)
    ensures IsNewsEntry(rec, f) ==> IsNewsEntry(rec, NoFilters)
  {
  }

  /** The empty keyword occurs in every text, so an include list holding "" lets everything through. */
  lemma EmptyKeywordMatchesAll(rec: Record, f: Filters)
    requires f.includeKeywords.Some? && "" in f.includeKeywords.value
    ensures IncludeMatches(rec, f)
  {
    assert "" <= Lower(TitleOf(rec))[0..];
  }

  /** A notice titled just "notice" (in Korean) is short, so the length check alone rejects it. */
  lemma ShortNoticeRejected(rec: Record, f: Filters)
    requires rec.title == "\U{ACF5}\U{C9C0}"
    ensures |TitleOf(rec)| < MinTitleLength
    ensures !IsNewsEntry(rec, f)
  {
    assert |rec.title| == 2 && rec.title[0] == '\U{ACF5}' && rec.title[1] == '\U{C9C0}';
    assert Stripped(rec.title);
    StripKeepsStripped(rec.title);
  }

  /**
   * A title that contains one of the exclusion words, in any case, is
   * rejected, whatever the filters say.
   */
  lemma ExcludedWordRejected(rec: Record, f: Filters, w: string)
    requires w in TitleExcludes
    requires Contains(Lower(TitleOf(rec)), w)
    ensures !IsNewsEntry(rec, f)
  {
    ExcludesAreLowerCase(w);
    assert ContainsAny(TitleOf(rec), TitleExcludes);
  }

  /** Every exclusion word is already lower-case, so `k.lower()` leaves it unchanged. */
  lemma ExcludesAreLowerCase(w: string)
    requires w in TitleExcludes
    ensures Lower(w) == w
  {
    forall k | k in TitleExcludes
      ensures forall i | 0 <= i < |k| :: !('A' <= k[i] <= 'Z')
    {
    }
    LowerOfLowerCase(w);
  }

  /** "Weekly Update Log for June" is rejected for its "update log". */
  lemma UpdateLogTitleRejected(rec: Record, f: Filters)
    requires rec.title == "Weekly Update Log for June"
    ensures !IsNewsEntry(rec, f)
  {
    assert Stripped(rec.title);
    StripKeepsStripped(rec.title);
    UpdateLogFound();
    assert TitleExcludes[3] in TitleExcludes;
    ExcludedWordRejected(rec, f, TitleExcludes[3]);
  }

  /** "update log" occurs in the lower-cased title "Weekly Update Log for June". */
  lemma UpdateLogFound()
    ensures Contains(Lower("Weekly Update Log for June"), TitleExcludes[3])
  {
    var t := Lower("Weekly Update Log for June");
    assert TitleExcludes[3] <= t[7..];
  }
}
