/**
 * The pipeline of `NewsFetcher.fetch` after the feeds have been fetched:
 * parse, classify, filter by date, build items, deduplicate, sort newest
 * first, and cut to the limit.
 */
module Core {
  import opened Wrappers
  import opened Models
  import opened Parser
  import opened Classifier
  import opened Normalizer
  import opened Dedup
  import opened Seqs

  /** `FetchOptions`: the user filters, the result limit and the date bounds (inclusive). */
  datatype FetchOptions = FetchOptions(
    language: Option<string>,
    categories: Option<seq<string>>,
    includeKeywords: Option<seq<string>>,
    excludeKeywords: Option<seq<string>>,
    limit: Option<int>,
    startDate: Option<int>,
    endDate: Option<int>)

  /** The classifier arguments the options carry. */
  function FiltersOf(opts: FetchOptions): Filters {
    Filters(opts.language, opts.categories, opts.includeKeywords, opts.excludeKeywords)
  }

  // ----- classification -----

  /** The entries the classifier accepts under the configured filters, in order. */
  function Classify(recs: seq<Record>, opts: FetchOptions): (kept: seq<Record>)
    ensures IsSubsequence(kept, recs)
    ensures forall i | 0 <= i < |kept| :: kept[i] in recs && IsNewsEntry(kept[i], FiltersOf(opts))
    ensures forall i | 0 <= i < |recs| && IsNewsEntry(recs[i], FiltersOf(opts)) :: recs[i] in kept
  {
    var accepted := (rec: Record) => IsNewsEntry(rec, FiltersOf(opts));
    FilterIsSubsequence(recs, accepted);
    Filter(recs, accepted)
  }

  // ----- date range -----

  /** The date filter runs only when a start or an end date is given. */
  predicate DateFilterActive(opts: FetchOptions) {
    opts.startDate.Some? || opts.endDate.Some?
  }

  /** The entry has a date, not before the start and not after the end. */
  predicate InDateRange(rec: Record, opts: FetchOptions)
    ensures InDateRange(rec, opts) ==> rec.publishedAt.Some?
    ensures !DateFilterActive(opts) ==> (InDateRange(rec, opts) <==> rec.publishedAt.Some?)
    ensures opts.startDate.Some? && opts.endDate.Some? && opts.endDate.value < opts.startDate.value ==>
              !InDateRange(rec, opts)
  {
    && rec.publishedAt.Some?
    && (opts.startDate.None? || opts.startDate.value <= rec.publishedAt.value)
    && (opts.endDate.None? || rec.publishedAt.value <= opts.endDate.value)
  }

  /** The date-range step: every entry outside the inclusive bounds, or without a date, is skipped. */
  function DateFilter(recs: seq<Record>, opts: FetchOptions): (kept: seq<Record>)
    ensures IsSubsequence(kept, recs)
    ensures !DateFilterActive(opts) ==> kept == recs
    ensures DateFilterActive(opts) ==>
              (forall i | 0 <= i < |kept| :: kept[i] in recs && InDateRange(kept[i], opts))
              && (forall i | 0 <= i < |recs| && InDateRange(recs[i], opts) :: recs[i] in kept)
  {
    if DateFilterActive(opts) then
      var inRange := (rec: Record) => InDateRange(rec, opts);
      FilterIsSubsequence(recs, inRange);
      Filter(recs, inRange)
    else
      SubsequenceOfSelf(recs);
      recs
  }

  // ----- building -----

  /** Building every entry, skipping the ones the builder rejects. */
  function BuildAll(recs: seq<Record>): (items: seq<NewsItem>)
    ensures |items| <= |recs|
    ensures forall x | x in items :: exists rec | rec in recs :: ToNewsItem(rec) == Success(x)
    ensures forall i | 0 <= i < |recs| && ToNewsItem(recs[i]).Success? :: ToNewsItem(recs[i]).value in items
    decreases |recs|
  {
    if |recs| == 0 then []
    else
      var rest := BuildAll(recs[1..]);
      match ToNewsItem(recs[0])
      case Success(it) => [it] + rest
      case Failure(_) => rest
  }

  // ----- sorting -----

  /** Non-increasing by publication time. */
  predicate NewestFirst(items: seq<NewsItem>) {
    forall i, j | 0 <= i < j < |items| :: items[i].publishedAt >= items[j].publishedAt
  }

  /** Inserts `x` before the first item that is not newer than it. */
  function InsertByTime(x: NewsItem, s: seq<NewsItem>): (r: seq<NewsItem>)
    ensures |r| == |s| + 1
    ensures multiset(r) == multiset(s) + multiset{x}
    ensures forall y | y in r :: y == x || y in s
    decreases |s|
  {
    if |s| == 0 || s[0].publishedAt <= x.publishedAt then [x] + s
    else
      var r := [s[0]] + InsertByTime(x, s[1..]);
      assert s == [s[0]] + s[1..];
      assert forall y | y in s[1..] :: y in s;
      r
  }

  /**
   * `items.sort(key=published_at, reverse=True)`: newest first; items with
   * equal times keep their order, since the sort is stable even reversed.
   */
  function SortNewestFirst(s: seq<NewsItem>): (r: seq<NewsItem>)
    ensures |r| == |s|
    ensures multiset(r) == multiset(s)
    ensures NewestFirst(r)
    decreases |s|
  {
    if |s| == 0 then []
    else
      assert s == [s[0]] + s[1..];
      var sorted := SortNewestFirst(s[1..]);
      InsertKeepsNewestFirst(s[0], sorted);
      InsertByTime(s[0], sorted)
  }

  /** Inserting into a newest-first sequence keeps it newest first. */
  lemma {:induction false} InsertKeepsNewestFirst(x: NewsItem, s: seq<NewsItem>)
    requires NewestFirst(s)
    ensures NewestFirst(InsertByTime(x, s))
    decreases |s|
  {
    if !(|s| == 0 || s[0].publishedAt <= x.publishedAt) {
      var tail := s[1..];
      InsertKeepsNewestFirst(x, tail);
      var r' := InsertByTime(x, tail);
      var r := [s[0]] + r';
      forall i, j | 0 <= i < j < |r| ensures r[i].publishedAt >= r[j].publishedAt {
        if i == 0 {
          assert r[j] == r'[j - 1];
          assert r'[j - 1] in r';
          if r'[j - 1] != x {
            var k :| 0 <= k < |tail| && tail[k] == r'[j - 1];
            assert s[k + 1] == r'[j - 1];
          }
        } else {
          assert r[i] == r'[i - 1] && r[j] == r'[j - 1];
        }
      }
    }
  }

  /** The items published at time `t`, in their order. */
  function AtTime(s: seq<NewsItem>, t: int): (r: seq<NewsItem>)
    ensures forall i | 0 <= i < |r| :: r[i].publishedAt == t
    decreases |s|
  {
    if |s| == 0 then []
    else (if s[0].publishedAt == t then [s[0]] else []) + AtTime(s[1..], t)
  }

  /** `AtTime` keeps exactly the items of `s` published at `t`. */
  lemma {:induction false} AtTimeMembers(s: seq<NewsItem>, t: int)
    ensures |AtTime(s, t)| <= |s|
    ensures forall x :: x in AtTime(s, t) <==> x in s && x.publishedAt == t
    decreases |s|
  {
    if |s| > 0 {
      AtTimeMembers(s[1..], t);
      assert s == [s[0]] + s[1..];
    }
  }

  /** The items at `t` of a prefix are a prefix of the items at `t`. */
  lemma {:induction false} AtTimeOfPrefix(s: seq<NewsItem>, k: nat, t: int)
    requires k <= |s|
    ensures AtTime(s[..k], t) <= AtTime(s, t)
    decreases k
  {
    if k > 0 {
      assert s[..k][1..] == s[1..][..k - 1];
      AtTimeOfPrefix(s[1..], k - 1, t);
    }
  }

  /** Inserting `x` puts it ahead of every other item with its time. */
  lemma {:induction false} InsertKeepsTies(x: NewsItem, s: seq<NewsItem>, t: int)
    ensures AtTime(InsertByTime(x, s), t) == (if x.publishedAt == t then [x] else []) + AtTime(s, t)
    decreases |s|
  {
    if |s| == 0 || s[0].publishedAt <= x.publishedAt {
      assert ([x] + s)[1..] == s;
    } else {
      var rest := InsertByTime(x, s[1..]);
      InsertKeepsTies(x, s[1..], t);
      assert ([s[0]] + rest)[1..] == rest;
      if s[0].publishedAt == t {
        assert x.publishedAt != t;
      }
    }
  }

  /** The sort is stable: the items with any one time keep their relative order. */
  lemma {:induction false} SortKeepsTies(s: seq<NewsItem>, t: int)
    ensures AtTime(SortNewestFirst(s), t) == AtTime(s, t)
    decreases |s|
  {
    if |s| > 0 {
      SortKeepsTies(s[1..], t);
      InsertKeepsTies(s[0], SortNewestFirst(s[1..]), t);
    }
  }

  /** Inserting an item whose key is new keeps the keys distinct. */
  lemma {:induction false} InsertKeepsUnique(x: NewsItem, s: seq<NewsItem>)
    requires UniqueKeys(s)
    requires forall y | y in s :: MakeKey(y) != MakeKey(x)
    ensures UniqueKeys(InsertByTime(x, s))
    decreases |s|
  {
    if !(|s| == 0 || s[0].publishedAt <= x.publishedAt) {
      var tail := s[1..];
      assert UniqueKeys(tail) by {
        forall i, j | 0 <= i < j < |tail| ensures MakeKey(tail[i]) != MakeKey(tail[j]) {
          assert tail[i] == s[i + 1] && tail[j] == s[j + 1];
        }
      }
      InsertKeepsUnique(x, tail);
      var r' := InsertByTime(x, tail);
      var r := [s[0]] + r';
      forall i, j | 0 <= i < j < |r| ensures MakeKey(r[i]) != MakeKey(r[j]) {
        if i == 0 {
          assert r[j] == r'[j - 1];
          assert r'[j - 1] in r';
          if r'[j - 1] != x {
            var k :| 0 <= k < |tail| && tail[k] == r'[j - 1];
            assert s[k + 1] == r'[j - 1];
          }
        } else {
          assert r[i] == r'[i - 1] && r[j] == r'[j - 1];
        }
      }
    }
  }

  /** Sorting keeps the keys distinct. */
  lemma {:induction false} SortKeepsUnique(s: seq<NewsItem>)
    requires UniqueKeys(s)
    ensures UniqueKeys(SortNewestFirst(s))
    decreases |s|
  {
    if |s| > 0 {
      var tail := s[1..];
      assert UniqueKeys(tail) by {
        forall i, j | 0 <= i < j < |tail| ensures MakeKey(tail[i]) != MakeKey(tail[j]) {
          assert tail[i] == s[i + 1] && tail[j] == s[j + 1];
        }
      }
      SortKeepsUnique(tail);
      var sorted := SortNewestFirst(tail);
      forall y | y in sorted ensures MakeKey(y) != MakeKey(s[0]) {
        assert y in multiset(sorted);
        var k :| 0 <= k < |tail| && tail[k] == y;
        assert s[k + 1] == y;
      }
      InsertKeepsUnique(s[0], sorted);
    }
  }

  // ----- limit -----

  /** The limit is applied only when it is given and positive. */
  predicate LimitApplies(limit: Option<int>) {
    limit.Some? && limit.value > 0
  }

  /** `items[:limit]` when the limit applies; otherwise every item. */
  function ApplyLimit(items: seq<NewsItem>, limit: Option<int>): (r: seq<NewsItem>)
    ensures r <= items
    ensures LimitApplies(limit) ==> |r| == if |items| <= limit.value then |items| else limit.value
    ensures !LimitApplies(limit) ==> |r| == |items|
  {
    if LimitApplies(limit) && limit.value < |items| then items[..limit.value] else items
  }

  // ----- the pipeline -----

  /** The items after deduplication, before sorting and the limit. */
  function Prepared(recs: seq<Record>, opts: FetchOptions): seq<NewsItem> {
    Deduplicate(BuildAll(DateFilter(Classify(recs, opts), opts)))
  }

  /** `NewsFetcher.fetch` over entries that have already been parsed. */
  function FetchParsed(recs: seq<Record>, opts: FetchOptions): (r: seq<NewsItem>)
    ensures forall x | x in r :: HasRequiredFields(x)
  {
    var items := ApplyLimit(SortNewestFirst(Prepared(recs, opts)), opts.limit);
    assert forall x | x in items :: x in multiset(SortNewestFirst(Prepared(recs, opts)));
    items
  }

  /** `NewsFetcher.fetch` over the fetched raw entries. */
  function Fetch(raws: seq<RawEntry>, env: Collaborators, opts: FetchOptions): (r: seq<NewsItem>)
    ensures forall x | x in r :: HasRequiredFields(x)
  {
    FetchParsed(ParseAll(raws, env), opts)
  }

  /** Every returned item's source is the one the parser derived for some fetched entry. */
  lemma FetchSourcesFromParser(raws: seq<RawEntry>, env: Collaborators, opts: FetchOptions)
    ensures forall x | x in Fetch(raws, env, opts) ::
              exists i | 0 <= i < |raws| :: ParseEntry(raws[i], env).source == x.source
  {
    var recs := ParseAll(raws, env);
    FetchProvenance(recs, opts);
    forall x | x in Fetch(raws, env, opts)
      ensures exists i | 0 <= i < |raws| :: ParseEntry(raws[i], env).source == x.source
    {
      var rec :| rec in recs && Admitted(rec, opts, x);
      var i := IndexOf(rec, recs);
      assert rec == ParseEntry(raws[i], env);
      assert rec.source != "";
      assert ToNewsItem(rec) == Success(x);
    }
  }

  /** Where a kept entry may come from: accepted, within the dates, built. */
  predicate Admitted(rec: Record, opts: FetchOptions, x: NewsItem) {
    && IsNewsEntry(rec, FiltersOf(opts))
    && (DateFilterActive(opts) ==> InDateRange(rec, opts))
    && ToNewsItem(rec) == Success(x)
  }

  /** Every built item comes from an admitted entry. */
  lemma BuiltProvenance(recs: seq<Record>, opts: FetchOptions)
    ensures forall x | x in BuildAll(DateFilter(Classify(recs, opts), opts)) ::
              exists rec | rec in recs :: Admitted(rec, opts, x)
  {
    var classified := Classify(recs, opts);
    var dated := DateFilter(classified, opts);
    forall x | x in BuildAll(dated) ensures exists rec | rec in recs :: Admitted(rec, opts, x) {
      var rec :| rec in dated && ToNewsItem(rec) == Success(x);
      var i := IndexOf(rec, dated);
      assert rec in classified && (DateFilterActive(opts) ==> InDateRange(rec, opts));
      var j := IndexOf(rec, classified);
      assert rec in recs && IsNewsEntry(rec, FiltersOf(opts));
    }
  }

  /** Deduplicating, sorting and limiting only ever drop items. */
  lemma ReturnedWasBuilt(built: seq<NewsItem>, limit: Option<int>, x: NewsItem)
    requires x in ApplyLimit(SortNewestFirst(Deduplicate(built)), limit)
    ensures x in built
  {
    var sorted := SortNewestFirst(Deduplicate(built));
    assert x in sorted;
    assert x in multiset(sorted);
    assert x in Deduplicate(built);
  }

  /**
   * Every returned item was built from an entry the classifier accepted
   * with the configured filters and, when bounds are given, that lies within
   * them.
   */
  lemma FetchProvenance(recs: seq<Record>, opts: FetchOptions)
    ensures forall x | x in FetchParsed(recs, opts) :: exists rec | rec in recs :: Admitted(rec, opts, x)
  {
    BuiltProvenance(recs, opts);
    forall x | x in FetchParsed(recs, opts) ensures exists rec | rec in recs :: Admitted(rec, opts, x) {
      ReturnedWasBuilt(BuildAll(DateFilter(Classify(recs, opts), opts)), opts.limit, x);
    }
  }

  /** With a start or an end date, every returned item lies within the inclusive bounds. */
  lemma FetchWithinDates(recs: seq<Record>, opts: FetchOptions)
    ensures forall x | x in FetchParsed(recs, opts) ::
              && (opts.startDate.Some? ==> opts.startDate.value <= x.publishedAt)
              && (opts.endDate.Some? ==> x.publishedAt <= opts.endDate.value)
  {
    var dated := DateFilter(Classify(recs, opts), opts);
    forall x | x in FetchParsed(recs, opts)
      ensures && (opts.startDate.Some? ==> opts.startDate.value <= x.publishedAt)
              && (opts.endDate.Some? ==> x.publishedAt <= opts.endDate.value)
    {
      ReturnedWasBuilt(BuildAll(dated), opts.limit, x);
      var rec :| rec in dated && ToNewsItem(rec) == Success(x);
      var i := IndexOf(rec, dated);
      assert DateFilterActive(opts) ==> InDateRange(rec, opts);
      assert x.publishedAt == rec.publishedAt.value;
    }
  }

  /** No two returned items share a deduplication key. */
  lemma FetchUniqueKeys(recs: seq<Record>, opts: FetchOptions)
    ensures UniqueKeys(FetchParsed(recs, opts))
  {
    var prepared := Prepared(recs, opts);
    DeduplicateSpec(BuildAll(DateFilter(Classify(recs, opts), opts)));
    SortKeepsUnique(prepared);
  }

  /**
   * The result is sorted newest first, and is the longest prefix of the
   * sorted items that the limit allows: all of them when no positive limit
   * is given.
   */
  lemma FetchOrderAndLimit(recs: seq<Record>, opts: FetchOptions)
    ensures NewestFirst(FetchParsed(recs, opts))
    ensures FetchParsed(recs, opts) <= SortNewestFirst(Prepared(recs, opts))
    ensures LimitApplies(opts.limit) ==>
              |FetchParsed(recs, opts)| == if |Prepared(recs, opts)| <= opts.limit.value then |Prepared(recs, opts)| else opts.limit.value
    ensures !LimitApplies(opts.limit) ==> FetchParsed(recs, opts) == SortNewestFirst(Prepared(recs, opts))
  {
  }

  /**
   * Items with equal times appear in their order after deduplication: for
   * every time `t`, the returned items at `t` are a prefix of the
   * deduplicated items at `t`, and all of them when no positive limit is given.
   */
  lemma FetchKeepsTies(recs: seq<Record>, opts: FetchOptions, t: int)
    ensures AtTime(FetchParsed(recs, opts), t) <= AtTime(Prepared(recs, opts), t)
    ensures !LimitApplies(opts.limit) ==> AtTime(FetchParsed(recs, opts), t) == AtTime(Prepared(recs, opts), t)
  {
    var prepared := Prepared(recs, opts);
    assert FetchParsed(recs, opts) == ApplyLimit(SortNewestFirst(prepared), opts.limit);
    LimitedSortKeepsTies(prepared, opts.limit, t);
  }

  /** Sorting and then limiting keeps, for each time, a prefix of the items at that time. */
  lemma LimitedSortKeepsTies(items: seq<NewsItem>, limit: Option<int>, t: int)
    ensures AtTime(ApplyLimit(SortNewestFirst(items), limit), t) <= AtTime(items, t)
    ensures !LimitApplies(limit) ==> AtTime(ApplyLimit(SortNewestFirst(items), limit), t) == AtTime(items, t)
  {
    var sorted := SortNewestFirst(items);
    var r := ApplyLimit(sorted, limit);
    SortKeepsTies(items, t);
    assert r == sorted[..|r|];
    AtTimeOfPrefix(sorted, |r|, t);
    if !LimitApplies(limit) {
      assert r == sorted;
    }
  }

  /** Building is done entry by entry, so it distributes over concatenation. */
  lemma {:induction false} BuildAllAppend(a: seq<Record>, b: seq<Record>)
    ensures BuildAll(a + b) == BuildAll(a) + BuildAll(b)
    decreases |a|
  {
    if |a| == 0 {
      assert a + b == b;
    } else {
      assert (a + b)[1..] == a[1..] + b;
      BuildAllAppend(a[1..], b);
    }
  }

  /** One entry builds to one item, or to none when the builder rejects it. */
  lemma BuildOne(rec: Record)
    ensures BuildAll([rec]) == if ToNewsItem(rec).Success? then [ToNewsItem(rec).value] else []
  {
    assert [rec][1..] == [];
  }

  /** An entry the builder rejects, wherever it stands, is dropped without affecting the others. */
  lemma BuildSkipsFailures(a: seq<Record>, bad: Record, b: seq<Record>)
    requires ToNewsItem(bad).Failure?
    ensures BuildAll(a + [bad] + b) == BuildAll(a + b)
  {
    BuildAllAppend(a + [bad], b);
    BuildAllAppend(a, [bad]);
    BuildAllAppend(a, b);
    BuildOne(bad);
  }
}
