# rss_news in Dafny

A model of the core of `rss_news`, a small library that turns RSS/Atom feed
entries into a clean, news-only, de-duplicated, newest-first list of
`NewsItem`s, and optionally rewrites their summaries with an AI provider.

The pipeline of `NewsFetcher.fetch` is modelled stage by stage, one Dafny
module per source file:

- `Parser`: `parse_entry`, which maps a raw feed entry to a record. The raw
  entry is a datatype of optional fields. Date conversion, `feedparser`'s date
  parser and `urlparse(...).netloc` are functions passed in a `Collaborators`
  value. Each returns `None` where the library call raises or finds nothing.
- `Classifier`: `is_news_entry`, the structural checks, the content checks and
  the four optional user filters.
- `Normalizer`: `to_news_item`, which fails without a link or a date
  (the program raises `ValueError` there).
- `Dedup`: `deduplicate`, first occurrence wins, with keys by priority
  guid, then link, then title and source.
- `Core`: `FetchOptions` and the pipeline. Classify, date range, build
  (skipping failures), deduplicate, stable sort newest first, limit.
- `Summarizers`: `_truncate`, `build_summarizer`, the per-item step `_one`
  and `summarize_items`, including its pooled path and its serial redo.
  The AI services are a `Backend` value. It says whether each provider can be
  constructed and what a request to the service returns (`None` when it fails
  or the reply is empty).

Helper modules: `Wrappers` (`Option`, `Result`), `Text` (ASCII `strip`,
`lower`, substring test, Python truthiness of optional strings) and `Seqs`
(filtering, subsequences).

Timestamps are integers. A Python `datetime` is always truthy, so only an
absent date counts as missing.

With the null summarizer and the "replace" strategy, an item's summary becomes
the prompt text (title, a blank line, the old summary, cut to
`max_input_chars`). This is because `NullSummarizer.summarize` returns the
`summary` argument it is given, and that argument is the truncated prompt.
The model keeps this behaviour as written; `Summarizers.NullProviderEchoesPrompt`
states it.

The AI summarizers do the same on failure. A failed request or an empty reply
returns the `summary` argument, which is the truncated prompt, so a failure
overwrites the item's summary. The stage's documentation promises that
failures fall back to the original summary. `Summarizers.ClientReply` and
`Summarizers.SummarizeOneAsWritten` model the code as written. The rest of the
model uses `Summarizers.Invoke`, where a failed request raises to the caller
and the caller keeps the original summary (see Findings).

## Model

| member | source | states |
|---|---|---|
| `Text.Strip` | rss_news/parser.py:73-75 | the result has no surrounding whitespace (ASCII whitespace and the separators 0x1C-0x1F); it is the input with only whitespace cut from each end; it is empty exactly when the input is all whitespace |
| `Text.StripIdempotent` | rss_news/classifier.py:31-34 | stripping an already stripped string changes nothing |
| `Text.LowerIdempotent` | rss_news/classifier.py:35 | lower-casing twice is lower-casing once |
| `Text.Lower` | rss_news/classifier.py:16-17 | lower-casing keeps the length |
| `Text.LowerOfLowerCase` | rss_news/classifier.py:15-17 | a string without upper-case ASCII letters is unchanged by lower-casing |
| `Text.LowerSpec` | rss_news/classifier.py:16-17 | after lower-casing no upper-case ASCII letter remains; each upper-case letter becomes its lower-case letter and every other character stays |
| `Text.Contains` | rss_news/classifier.py:17 | the substring test holds for every prefix and for the empty needle, and only for needles no longer than the text |
| `Text.Or` | rss_news/parser.py:62 | Python's `a or b` on optional strings is truthy exactly when one of its operands is |
| `Parser.FirstPresent` | rss_news/parser.py:14-35 | no date exactly when every candidate failed |
| `Parser.FirstPresentIsFirst` | rss_news/parser.py:14-35 | a date found is some candidate's, and every candidate before it failed |
| `Parser.DatePriority` | rss_news/parser.py:9-35 | the date is the first successful conversion in the order published_parsed, updated_parsed, created_parsed, published, updated, created, and is missing only when all six fail |
| `Parser.ToDatetime` | rss_news/parser.py:9-35 | a converted published_parsed always wins, and any date returned is one of the six candidates |
| `Parser.HostOf` | rss_news/parser.py:45-54 | a host exists exactly when the link is non-empty and its extracted netloc is non-empty, and it is that netloc |
| `Parser.GetSource` | rss_news/parser.py:38-58 | the source is never empty; a non-blank embedded feed title wins, stripped; otherwise the host of feedburner_origlink, then of link, then "unknown" |
| `Parser.GetLanguage` | rss_news/parser.py:61-65 | the lower-cased `language` when truthy, else the lower-cased `dc_language` when truthy, else the lower-cased `lang` when present; missing exactly when none of these applies |
| `Parser.GetGuid` | rss_news/parser.py:77-83 | the stripped `id` when it is not blank, else the stripped `guid` when it is not blank, else missing; never blank |
| `Parser.GetCategory` | rss_news/parser.py:85-93 | the stripped `term` of the first tag, present exactly when the first tag is a dict whose term is not blank |
| `Parser.ParseEntry` | rss_news/parser.py:68-108 | the record has a non-empty source; stripped title, summary and link; a date missing exactly when all six candidates fail; source, date, language, category and guid are the values given by `GetSource`, `ToDatetime`, `GetLanguage`, `GetCategory` and `GetGuid` |
| `Parser.TextFieldFallbacks` | rss_news/parser.py:73-75 | title is the stripped title or ""; summary falls back from summary to description to ""; link falls back from link to feedburner_origlink to "" |
| `Parser.ParsedFieldsStable` | rss_news/parser.py:68-108 | the fields the classifier strips again are already stripped |
| `Parser.ParseAll` | rss_news/core.py:58 | one record per raw entry, in order |
| `Classifier.IsNewsEntry` | rss_news/classifier.py:20-77 | accepted exactly when the structural and content checks pass and so do the user filters; rejected without a date or link, with a title shorter than 10, or with an excluded word in the title |
| `Classifier.ContainsAny` | rss_news/classifier.py:15-17 | no keyword matches nothing; the empty keyword matches everything; a match needs a keyword no longer than the text |
| `Classifier.ContainsAnyIgnoresCase` | rss_news/classifier.py:15-17 | the keyword test gives the same verdict on the text and on its lower-cased form |
| `Classifier.NoLanguageNeverRejected` | rss_news/classifier.py:60-61 | an entry without a language is never rejected by the language filter |
| `Classifier.NoCategoryNeverRejected` | rss_news/classifier.py:63-67 | an entry without a category is never rejected by the category filter |
| `Classifier.EmptyListsDisableFilters` | rss_news/classifier.py:63-75 | an empty category, include or exclude list behaves as no list |
| `Classifier.FiltersOnlyNarrow` | rss_news/classifier.py:59-77 | an entry accepted with user filters is accepted without them |
| `Classifier.EmptyKeywordMatchesAll` | rss_news/classifier.py:15-17 | an empty include keyword matches every entry |
| `Classifier.ShortNoticeRejected` | rss_news/classifier.py:54-55 | a two-character title such as "notice" in Korean is rejected as too short |
| `Classifier.ExcludedWordRejected` | rss_news/classifier.py:12-57 | a title containing any of the exclusion words ("update log" or the Korean words for comment, notice, update), in any case, is rejected whatever the filters |
| `Classifier.ExcludesAreLowerCase` | rss_news/classifier.py:12 | every exclusion word is its own lower case, so lower-casing the keyword changes nothing |
| `Classifier.UpdateLogTitleRejected` | rss_news/classifier.py:12-57 | the title "Weekly Update Log for June" is rejected for its "update log" |
| `Normalizer.SourceOrUnknown` | rss_news/normalizer.py:22 | the entry's own source when it is non-empty, otherwise "unknown"; never empty |
| `Normalizer.ToNewsItem` | rss_news/normalizer.py:8-42 | fails exactly when the link is empty or the date is missing; a built item has a link and a source and keeps the date |
| `Normalizer.BuildPreservesFields` | rss_news/normalizer.py:19-42 | a built item carries every field of its record, with an empty source replaced by "unknown" |
| `Normalizer.BuildRoundTrip` | rss_news/normalizer.py:8-42 | an item with a link and a source is rebuilt unchanged from its own fields |
| `Dedup.DedupFrom` | rss_news/dedup.py:23-28 | the loop keeps only input items whose keys were not seen before |
| `Dedup.MakeKey` | rss_news/dedup.py:16-21 | the key is the title and source pair exactly when the item has neither a guid nor a link; otherwise it is a tagged guid or link |
| `Dedup.SameKeyIffSameStory` | rss_news/dedup.py:16-21 | two items share a key exactly when their guids are equal (if either has one), else their links are (if either has one), else their titles and sources are |
| `Dedup.Deduplicate` | rss_news/dedup.py:8-29 | the output is no longer than the input and holds only input items |
| `Dedup.DedupFromIsSubsequence` | rss_news/dedup.py:23-28 | the loop keeps the input order |
| `Dedup.DedupFromUnique` | rss_news/dedup.py:23-28 | no two kept items share a key |
| `Dedup.DedupFromKeepsFirsts` | rss_news/dedup.py:23-28 | an item is kept exactly when it is the first with its key and that key was not seen |
| `Dedup.DedupFromNoDuplicates` | rss_news/dedup.py:23-28 | input with distinct, unseen keys passes through unchanged |
| `Dedup.DeduplicateSpec` | rss_news/dedup.py:8-29 | the output is a subsequence with distinct keys, covers every input key, and holds exactly the first item of each key |
| `Dedup.FirstWithKey` | rss_news/dedup.py:23-28 | every key present has a first item carrying it |
| `Dedup.DeduplicateIdempotent` | rss_news/dedup.py:8-29 | deduplicating twice is deduplicating once |
| `Dedup.GuidAndLinkKeysDiffer` | rss_news/dedup.py:16-21 | an item with a guid and one without, sharing a link, are both kept |
| `Dedup.DistinctPairKept` | rss_news/dedup.py:23-28 | two items with different keys are both kept, in order |
| `Dedup.GuidKeyNeverLinkKey` | rss_news/dedup.py:16-21 | a guid key never equals the key of an item without a guid |
| `Core.Classify` | rss_news/core.py:61-70 | keeps exactly the entries the classifier accepts with the configured filters, as a subsequence in feed order |
| `Core.InDateRange` | rss_news/core.py:78-85 | an entry in range has a date; without bounds every dated entry is in range; an inverted range admits nothing |
| `Core.DateFilter` | rss_news/core.py:73-86 | a subsequence in feed order; without bounds nothing changes; with bounds, keeps exactly the dated entries within the inclusive bounds |
| `Core.BuildAll` | rss_news/core.py:89-95 | every built item comes from an entry, and every entry that builds is included |
| `Core.BuildAllAppend` | rss_news/core.py:89-95 | building distributes over concatenation, so the built items keep the entries' order and multiplicity |
| `Core.BuildOne` | rss_news/core.py:89-95 | one entry builds to its item, or to nothing when the builder rejects it |
| `Core.BuildSkipsFailures` | rss_news/core.py:89-95 | an entry that fails to build, wherever it stands, is skipped and changes nothing else |
| `Core.InsertByTime` | rss_news/core.py:99 | inserting one item gives a permutation of the list plus that item |
| `Core.SortNewestFirst` | rss_news/core.py:99 | the result is a permutation of the input, ordered newest first |
| `Core.InsertKeepsNewestFirst` | rss_news/core.py:99 | inserting into a newest-first list keeps it newest first |
| `Core.InsertKeepsTies` | rss_news/core.py:99 | an inserted item goes before the items with its own timestamp and keeps their order |
| `Core.SortKeepsTies` | rss_news/core.py:99 | the sort is stable: items with equal timestamps keep their input order |
| `Core.AtTime` | rss_news/core.py:99 | the items of one publication time, all of them published at it |
| `Core.AtTimeMembers` | rss_news/core.py:99 | the items of one time are exactly the input's items published at that time |
| `Core.InsertKeepsUnique` | rss_news/core.py:98-99 | inserting an item with a new key keeps keys distinct |
| `Core.SortKeepsUnique` | rss_news/core.py:98-99 | sorting keeps keys distinct |
| `Core.ApplyLimit` | rss_news/core.py:102-103 | the result is a prefix; a positive limit caps its length; without one the list is whole |
| `Core.FetchParsed` | rss_news/core.py:54-105 | every returned item has a link and a source |
| `Core.Fetch` | rss_news/core.py:54-105 | every returned item of the whole pipeline has a link and a source |
| `Core.FetchSourcesFromParser` | rss_news/core.py:54-105 | every returned item's source is the one the parser found for some entry |
| `Core.BuiltProvenance` | rss_news/core.py:61-95 | every built item comes from an accepted entry within the date bounds |
| `Core.ReturnedWasBuilt` | rss_news/core.py:97-105 | deduplicating, sorting and limiting return only items that were built |
| `Core.FetchProvenance` | rss_news/core.py:54-105 | every returned item was built from an entry the classifier accepted and that lies within the given date bounds |
| `Core.FetchWithinDates` | rss_news/core.py:72-86 | every returned item lies within the inclusive start and end dates |
| `Core.FetchUniqueKeys` | rss_news/core.py:97-99 | no two returned items share a dedup key |
| `Core.FetchOrderAndLimit` | rss_news/core.py:97-105 | the result is newest first and a prefix of the sorted items; under a positive limit its length is the smaller of the limit and the number of items; without one it is all of them |
| `Core.FetchKeepsTies` | rss_news/core.py:99-103 | items with equal timestamps come out in their deduplicated order |
| `Core.LimitedSortKeepsTies` | rss_news/core.py:99-103 | after sorting and limiting, the items at each timestamp are a prefix of those before, and all of them without a limit |
| `Summarizers.Truncate` | rss_news/summarizers.py:110-115 | the result is a prefix of the input; no limit when it is not positive; otherwise its length is the smaller of the two |
| `Summarizers.BuildSummarizer` | rss_news/summarizers.py:118-127 | OpenAI exactly for the name "openai" in any case; Gemini exactly for "gemini", "google" or "googleai" |
| `Summarizers.DispatchIgnoresCase` | rss_news/summarizers.py:121 | the provider chosen does not depend on the case of its name |
| `Summarizers.UnknownProviderIsNull` | rss_news/summarizers.py:118-127 | without options, or for any other name, the null summarizer is used |
| `Summarizers.Invoke` | rss_news/summarizers.py:25-27 | the null summarizer answers the summary it is given; an AI summarizer raises exactly when the request fails or replies with nothing, and otherwise answers what the client would |
| `Summarizers.ClientReply` | rss_news/summarizers.py:25-107 | as written, the null summarizer and an AI summarizer after a failed or empty request answer their summary argument; a successful reply is answered stripped |
| `Summarizers.PromptFor` | rss_news/summarizers.py:145-148 | the call carries the item's title and link and the language hint; its text is title, blank line, summary cut to the input limit: the prefix of exactly the limit's length when the text is longer, the whole text otherwise or when the limit is not positive |
| `Summarizers.Answer` | rss_news/summarizers.py:147-152 | the new text is the provider's answer or the original summary, and is empty only when the original is |
| `Summarizers.Combine` | rss_news/summarizers.py:153-156 | any strategy but "append" gives the answer alone; "append" ends with the answer and, for a non-empty original, starts with the original and the "[AI summary]" marker |
| `Summarizers.SummarizeOne` | rss_news/summarizers.py:144-166 | only the summary of the item changes |
| `Summarizers.SummarizeOneAsWritten` | rss_news/summarizers.py:144-166 | `_one` over the summarizers as written changes only the summary |
| `Summarizers.FailedCallWritesPrompt` | rss_news/summarizers.py:56-71 | as written, a failed request under replace sets the summary to the truncated prompt, which differs from the item unless the limit cuts it |
| `Summarizers.FailedCallKeepsSummary` | rss_news/summarizers.py:138 | with the failure raised, a failed request under replace keeps the item unchanged |
| `Summarizers.CorrectionOnlyTouchesFailures` | rss_news/summarizers.py:144-166 | the corrected and the as-written step agree whenever the request succeeds, and always for the null summarizer |
| `Summarizers.ReplaceStrategy` | rss_news/summarizers.py:147-156 | replacing takes a non-empty answer; after a failure or an empty answer the item is unchanged |
| `Summarizers.AppendStrategy` | rss_news/summarizers.py:153-154 | appending keeps a non-empty original first, then the marker, then the answer; an empty original is replaced |
| `Summarizers.AppendAfterFailure` | rss_news/summarizers.py:147-154 | appending after a failed call repeats the original summary after the marker |
| `Summarizers.NullProviderEchoesPrompt` | rss_news/summarizers.py:144-156 | with the null summarizer, replacing sets the summary to the truncated prompt text |
| `Summarizers.AllFailuresKeepItems` | rss_news/summarizers.py:147-156 | when every call raises, replacing leaves every item unchanged, as the stage promises |
| `Summarizers.Workers` | rss_news/summarizers.py:168 | at least one worker; one exactly when at most one is requested |
| `Summarizers.SummarizeSerially` | rss_news/summarizers.py:169-170 | one summarized item per input item, in order |
| `Summarizers.CollectPooled` | rss_news/summarizers.py:172-180 | the results of the tasks that did not crash, in submission order (as `Survivors` defines them); all of them, each the summarized item, exactly when no worker failed |
| `Summarizers.MapInOrder` | rss_news/summarizers.py:169-170 | the list comprehension applies the step to every item, in order |
| `Summarizers.CollectInOrder` | rss_news/summarizers.py:173-180 | the results of the tasks that did not crash, in submission order (as `Survivors` defines them), and all of them exactly when none crashed |
| `Summarizers.Survivors` | rss_news/summarizers.py:175-180 | the gathered results never outnumber the tasks |
| `Summarizers.SurvivorsSurvived` | rss_news/summarizers.py:175-180 | every gathered result is the task's work on an item whose task did not crash |
| `Summarizers.AllCrashedGivesNothing` | rss_news/summarizers.py:175-180 | when every task crashed, nothing is gathered |
| `Summarizers.SummarizeItems` | rss_news/summarizers.py:130-186 | fails only when the chosen provider cannot be constructed; otherwise one summarized item per input item, in input order, whatever workers fail |

## Findings

| source | as written | input that shows it | evidently intended | confidence | as-written member | corrected member |
|---|---|---|---|---|---|---|
| rss_news/summarizers.py:56-71 | on a failed request or an empty reply, `OpenAISummarizer.summarize` (and `GeminiSummarizer.summarize`, lines 96-107) returns its `summary` argument, which `_one` set to the truncated prompt; `_one`'s own fallback never runs | title "T", summary "S", strategy "replace", the request raises: the summary becomes "T\n\nS" | failures fall back to the original summary "S", as the docstring of `summarize_items` (line 138) says | medium, not executed | `Summarizers.FailedCallWritesPrompt` | `Summarizers.FailedCallKeepsSummary` |

## Left out

- Fetching feeds over the network (`fetcher.py`, `fetch_many`): `Core.Fetch` starts from the raw entries.
- `time.mktime`, `datetime.fromtimestamp`, `feedparser._parse_date` and `urllib.parse.urlparse`: passed in as functions, not modelled.
- The key `hash((title, source))` in `deduplicate`: modelled as the pair itself. A hash collision between two different pairs would merge them in `rss_news` and does not in the model.
- `str.strip` and `str.lower`: modelled for ASCII whitespace (including the separators 0x1C-0x1F) and ASCII letters only. Non-ASCII whitespace such as U+0085, U+00A0 or U+3000 is kept by `Text.Strip`, and Unicode case mapping is not modelled.
- Core.DateFilter: timestamps are integers, so the model cannot compare an aware date with a naive one. The program's parsed dates are always in UTC (lines 19 and 32 of rss_news/parser.py). A `start_date` or `end_date` without a time zone makes the comparison raise `TypeError` and aborts the whole fetch. The model always filters.
- The feed-title and category hint sets in the classifier: they have no effect on the result, so they are declared but not used.
- The requests inside `OpenAISummarizer.summarize` and `GeminiSummarizer.summarize` (prompt wording, HTTP calls, timeouts): replaced by `Backend.call`. A call is treated as a function of its arguments. What the clients do with the reply is modelled by `Summarizers.ClientReply`.
- Environment variables and optional packages read by the provider constructors: folded into `Backend.ready`.
- `SummarizeOptions.model` and `SummarizeOptions.timeout_sec`: passed only to the AI clients.
- `ThreadPoolExecutor` scheduling: the pooled path is a loop over the futures in submission order. Which workers fail is the parameter `crashed`.
- Items as a one-shot iterator: `summarize_items` and `deduplicate` take a sequence. In `summarize_items`, `list(items)` re-reads the iterable, which matters only for generators.
- The Discord bot and the command-line entry points: not part of the core.
