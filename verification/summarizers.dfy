/**
 * The optional summarization stage (`summarize_items`): each item's summary
 * is rewritten by a provider, falling back to the original whenever the
 * provider fails. The AI providers themselves are a `Backend` parameter.
 */
module Summarizers {
  import opened Wrappers
  import opened Text
  import opened Models

  /**
   * `SummarizeOptions`. The model name and the per-call timeout only reach
   * the AI clients and are not part of this model.
   */
  datatype SummarizeOptions = SummarizeOptions(
    provider: string,
    maxInputChars: int,
    maxWorkers: int,
    strategy: string,
    language: Option<string>)

  /** The summarizer implementations `build_summarizer` chooses between. */
  datatype Provider = NullProvider | OpenAIProvider | GeminiProvider

  /** The keyword arguments of a `summarize` call. */
  datatype Request = Request(title: string, summary: string, link: string, language: Option<string>)

  /** Constructing an AI summarizer failed (its client library or API key is missing). */
  datatype SetupError = ProviderUnavailable(provider: Provider)

  /**
   * The AI services: whether each provider can be constructed, and the text
   * a request to the service returns, `None` when the request raises or the
   * reply carries no text.
   */
  datatype Backend = Backend(ready: Provider -> bool, call: (Provider, Request) -> Option<string>)

  const Separator := "\n\n"
  /** Placed between the original summary and the appended one: "[AI summary]". */
  const AppendMarker := "\n\n[AI \U{C694}\U{C57D}]\n"
  const GeminiNames: set<string> := {"gemini", "google", "googleai"}

  /** `_truncate`: at most `limit` leading characters; no limit when `limit <= 0`. */
  function Truncate(s: string, limit: int): (r: string)
    ensures r <= s
    ensures limit <= 0 ==> r == s
    ensures limit > 0 ==> |r| == if |s| <= limit then |s| else limit
  {
    if limit <= 0 then s
    else if |s| <= limit then s
    else s[..limit]
  }

  /**
   * `build_summarizer`: OpenAI for the provider name "openai", Gemini for
   * "gemini", "google" or "googleai", in any case; the null summarizer
   * without options or for any other name.
   */
  function BuildSummarizer(options: Option<SummarizeOptions>): (p: Provider)
    ensures p == OpenAIProvider <==> options.Some? && Lower(options.value.provider) == "openai"
    ensures p == GeminiProvider <==> options.Some? && Lower(options.value.provider) in GeminiNames
  {
    if options.None? then NullProvider
    else
      var provider := Lower(options.value.provider);
      if provider == "openai" then OpenAIProvider
      else if provider in GeminiNames then GeminiProvider
      else NullProvider
  }

  /** The choice of provider does not depend on the case of its name. */
  lemma DispatchIgnoresCase(o: SummarizeOptions)
    ensures BuildSummarizer(Some(o)) == BuildSummarizer(Some(o.(provider := Lower(o.provider))))
  {
    LowerIdempotent(o.provider);
  }

  /** Without options, or with an unknown provider name, the null summarizer is used. */
  lemma UnknownProviderIsNull(o: SummarizeOptions)
    requires Lower(o.provider) != "openai" && Lower(o.provider) !in GeminiNames
    ensures BuildSummarizer(None) == NullProvider
    ensures BuildSummarizer(Some(o)) == NullProvider
  {
  }

  /** Whether the provider can be constructed; the null summarizer always can. */
  predicate Ready(p: Provider, backend: Backend) {
    p == NullProvider || backend.ready(p)
  }

  /**
   * `summarize` of the chosen summarizer, as the program writes it. The null
   * summarizer answers the `summary` it is given; an AI summarizer answers
   * the stripped reply, and on a failed request or an empty reply it too
   * answers its `summary` argument. It never raises.
   */
  function ClientReply(p: Provider, backend: Backend, req: Request): (s: string)
    ensures p == NullProvider ==> s == req.summary
    ensures p != NullProvider && !Truthy(backend.call(p, req)) ==> s == req.summary
    ensures p != NullProvider && Truthy(backend.call(p, req)) ==> s == Strip(backend.call(p, req).value)
  {
    match p
    case NullProvider => req.summary
    case _ =>
      var reply := backend.call(p, req);
      if Truthy(reply) then Strip(reply.value) else req.summary
  }

  /**
   * `summarize` as its caller relies on it: a failed request or an empty
   * reply raises (`None`), so that the per-item step keeps the original
   * summary. The null summarizer answers the `summary` it is given.
   */
  function Invoke(p: Provider, backend: Backend, req: Request): (answer: Option<string>)
    ensures p == NullProvider ==> answer == Some(req.summary)
    ensures p != NullProvider ==> (answer.None? <==> !Truthy(backend.call(p, req)))
    ensures p != NullProvider && answer.Some? ==> answer.value == ClientReply(p, backend, req)
  {
    match p
    case NullProvider => Some(req.summary)
    case _ =>
      var reply := backend.call(p, req);
      if Truthy(reply) then Some(Strip(reply.value)) else None
  }

  /**
   * The call made for an item: its title, link and the language hint, with
   * `title + "\n\n" + summary` cut to the input limit as the summary.
   */
  function PromptFor(item: NewsItem, opts: SummarizeOptions): (req: Request)
    ensures req.title == item.title && req.link == item.link && req.language == opts.language
    ensures req.summary <= item.title + Separator + item.summary
    ensures opts.maxInputChars > 0 ==>
      |req.summary| == if |item.title + Separator + item.summary| <= opts.maxInputChars
                       then |item.title + Separator + item.summary| else opts.maxInputChars
    ensures opts.maxInputChars <= 0 ==> req.summary == item.title + Separator + item.summary
  {
    Request(item.title, Truncate(item.title + Separator + item.summary, opts.maxInputChars), item.link, opts.language)
  }

  /**
   * The new text for an item: the provider's answer, or the item's own
   * summary when the call raised or answered "".
   */
  function Answer(item: NewsItem, opts: SummarizeOptions, p: Provider, backend: Backend): (s: string)
    ensures s == item.summary || Invoke(p, backend, PromptFor(item, opts)) == Some(s)
    ensures s == "" ==> item.summary == ""
  {
    match Invoke(p, backend, PromptFor(item, opts))
    case Some(text) => if text != "" then text else item.summary
    case None => item.summary
  }

  /**
   * `_one`: a copy of the item whose summary is the answer ("replace", or
   * any strategy other than "append"), or the original summary, the marker
   * and the answer ("append"; just the answer when the original is empty).
   */
  function SummarizeOne(item: NewsItem, opts: SummarizeOptions, p: Provider, backend: Backend): (r: NewsItem)
    ensures r == item.(summary := r.summary)
  {
    item.(summary := Combine(item.summary, opts.strategy, Answer(item, opts, p, backend)))
  }

  /** The new summary under a strategy, from the original and the answer. */
  function Combine(original: string, strategy: string, s: string): (r: string)
    ensures strategy != "append" ==> r == s
    ensures strategy == "append" ==> |s| <= |r| && r[|r| - |s|..] == s
    ensures strategy == "append" && original != "" ==> original + AppendMarker <= r
  {
    if strategy == "append" then (if original != "" then original + AppendMarker + s else s)
    else s
  }

  /**
   * `_one` over the summarizers as written: since `ClientReply` never
   * raises, only an empty reply falls back to the original summary.
   */
  function SummarizeOneAsWritten(item: NewsItem, opts: SummarizeOptions, p: Provider, backend: Backend): (r: NewsItem)
    ensures r == item.(summary := r.summary)
  {
    var reply := ClientReply(p, backend, PromptFor(item, opts));
    var s := if reply != "" then reply else item.summary;
    item.(summary := Combine(item.summary, opts.strategy, s))
  }

  /**
   * As written, a failed request to an AI service replaces the summary with
   * the prompt text: title, blank line, old summary, cut to the input
   * limit. Unless the limit cuts it short, that text is never the old
   * summary.
   */
  lemma FailedCallWritesPrompt(item: NewsItem, opts: SummarizeOptions, p: Provider, backend: Backend)
    requires p != NullProvider && opts.strategy != "append"
    requires !Truthy(backend.call(p, PromptFor(item, opts)))
    ensures SummarizeOneAsWritten(item, opts, p, backend).summary
              == Truncate(item.title + Separator + item.summary, opts.maxInputChars)
    ensures opts.maxInputChars <= 0 || |item.title + Separator + item.summary| <= opts.maxInputChars ==>
              SummarizeOneAsWritten(item, opts, p, backend) != item
  {
    var prompt := item.title + Separator + item.summary;
    assert |prompt| == |item.title| + 2 + |item.summary|;
    var r := SummarizeOneAsWritten(item, opts, p, backend);
    if opts.maxInputChars <= 0 || |prompt| <= opts.maxInputChars {
      assert r.summary == prompt;
      assert |r.summary| != |item.summary|;
    }
  }

  /**
   * With the failure raised to the caller, a failed request keeps the item
   * as it was when the strategy replaces.
   */
  lemma FailedCallKeepsSummary(item: NewsItem, opts: SummarizeOptions, p: Provider, backend: Backend)
    requires p != NullProvider && opts.strategy != "append"
    requires !Truthy(backend.call(p, PromptFor(item, opts)))
    ensures SummarizeOne(item, opts, p, backend) == item
  {
  }

  /** The two readings agree whenever the request succeeds, and always for the null summarizer. */
  lemma CorrectionOnlyTouchesFailures(item: NewsItem, opts: SummarizeOptions, p: Provider, backend: Backend)
    requires p == NullProvider || Truthy(backend.call(p, PromptFor(item, opts)))
    ensures SummarizeOne(item, opts, p, backend) == SummarizeOneAsWritten(item, opts, p, backend)
  {
  }

  /** Replacing: the summary becomes the provider's non-empty answer, or stays as it was. */
  lemma ReplaceStrategy(item: NewsItem, opts: SummarizeOptions, p: Provider, backend: Backend)
    requires opts.strategy != "append"
    ensures var answer := Invoke(p, backend, PromptFor(item, opts));
            && (answer.Some? && answer.value != "" ==> SummarizeOne(item, opts, p, backend).summary == answer.value)
            && (answer.None? || answer.value == "" ==> SummarizeOne(item, opts, p, backend) == item)
  {
  }

  /**
   * Appending keeps a non-empty original summary in front, followed by the
   * marker and then the answer; an empty original is just replaced.
   */
  lemma AppendStrategy(item: NewsItem, opts: SummarizeOptions, p: Provider, backend: Backend)
    requires opts.strategy == "append"
    ensures var r := SummarizeOne(item, opts, p, backend).summary;
            var s := Answer(item, opts, p, backend);
            && (item.summary != "" ==> item.summary + AppendMarker <= r && r[|item.summary + AppendMarker|..] == s)
            && (item.summary == "" ==> r == s)
  {
    var r := SummarizeOne(item, opts, p, backend).summary;
    var s := Answer(item, opts, p, backend);
    if item.summary != "" {
      assert r == (item.summary + AppendMarker) + s;
    }
  }

  /**
   * When the provider fails, appending repeats the original summary after
   * the marker, since the fallback answer is the original itself.
   */
  lemma AppendAfterFailure(item: NewsItem, opts: SummarizeOptions, p: Provider, backend: Backend)
    requires opts.strategy == "append" && item.summary != ""
    requires Invoke(p, backend, PromptFor(item, opts)).None?
    ensures SummarizeOne(item, opts, p, backend).summary == item.summary + AppendMarker + item.summary
  {
  }

  /**
   * The null summarizer answers the prompt text it is given, so replacing
   * turns the summary into the title, a blank line and the old summary, cut
   * to the input limit.
   */
  lemma NullProviderEchoesPrompt(item: NewsItem, opts: SummarizeOptions, backend: Backend)
    requires opts.strategy != "append"
    ensures SummarizeOne(item, opts, NullProvider, backend).summary
              == Truncate(item.title + Separator + item.summary, opts.maxInputChars)
  {
    var text := Truncate(item.title + Separator + item.summary, opts.maxInputChars);
    assert |item.title + Separator + item.summary| >= 2;
    assert text != "";
  }

  /** `max(1, int(max_workers or 1))`: the worker count is at least one. */
  function Workers(maxWorkers: int): (n: int)
    ensures n >= 1
    ensures n == 1 <==> maxWorkers <= 1
    ensures maxWorkers > 1 ==> n == maxWorkers
  {
    var requested := if maxWorkers == 0 then 1 else maxWorkers;
    if requested < 1 then 1 else requested
  }

  /** The single-worker path: every item summarized, in order. */
  method SummarizeSerially(items: seq<NewsItem>, opts: SummarizeOptions, p: Provider, backend: Backend)
    returns (out: seq<NewsItem>)
    ensures |out| == |items|
    ensures forall i | 0 <= i < |items| :: out[i] == SummarizeOne(items[i], opts, p, backend)
  {
    out := MapInOrder(items, (item: NewsItem) => SummarizeOne(item, opts, p, backend));
  }

  /** The per-item task handed to the pool. */
  function StepFor(opts: SummarizeOptions, p: Provider, backend: Backend): NewsItem -> NewsItem {
    (item: NewsItem) => SummarizeOne(item, opts, p, backend)
  }

  /**
   * The pooled path: one task per item, results gathered in submission
   * order, a task whose worker failed (`crashed(i)`) contributing nothing.
   */
  method CollectPooled(items: seq<NewsItem>, opts: SummarizeOptions, p: Provider, backend: Backend, crashed: nat -> bool)
    returns (out: seq<NewsItem>)
    ensures out == Survivors(items, StepFor(opts, p, backend), crashed, |items|)
    ensures |out| <= |items|
    ensures |out| == |items| <==> forall i | 0 <= i < |items| :: !crashed(i)
    ensures |out| == |items| ==> forall i | 0 <= i < |items| :: out[i] == SummarizeOne(items[i], opts, p, backend)
  {
    out := CollectInOrder(items, StepFor(opts, p, backend), crashed);
  }

  /**
   * The results of the first `n` tasks that did not crash, in submission
   * order: every one is `step` of an item whose task survived.
   */
  function Survivors(items: seq<NewsItem>, step: NewsItem -> NewsItem, crashed: nat -> bool, n: nat): (r: seq<NewsItem>)
    requires n <= |items|
    ensures |r| <= n
    decreases n
  {
    if n == 0 then []
    else
      var r := Survivors(items, step, crashed, n - 1);
      if crashed(n - 1) then r else r + [step(items[n - 1])]
  }

  /** Every result that comes back is `step` of an item whose task did not crash. */
  lemma {:induction false} SurvivorsSurvived(items: seq<NewsItem>, step: NewsItem -> NewsItem, crashed: nat -> bool, n: nat)
    requires n <= |items|
    ensures forall j | 0 <= j < |Survivors(items, step, crashed, n)| ::
              exists k: nat | k < n :: !crashed(k) && Survivors(items, step, crashed, n)[j] == step(items[k])
    decreases n
  {
    if n > 0 {
      SurvivorsSurvived(items, step, crashed, n - 1);
      var r := Survivors(items, step, crashed, n - 1);
      var all := Survivors(items, step, crashed, n);
      assert all == if crashed(n - 1) then r else r + [step(items[n - 1])];
      forall j | 0 <= j < |all|
        ensures exists k: nat | k < n :: !crashed(k) && all[j] == step(items[k])
      {
        if j == |r| {
          assert !crashed(n - 1) && all[j] == step(items[n - 1]);
        } else {
          var k: nat :| k < n - 1 && !crashed(k) && r[j] == step(items[k]);
          assert all[j] == step(items[k]);
        }
      }
    } else {
      assert Survivors(items, step, crashed, n) == [];
    }
  }

  /** When every task crashed, nothing comes back. */
  lemma {:induction false} AllCrashedGivesNothing(items: seq<NewsItem>, step: NewsItem -> NewsItem, crashed: nat -> bool, n: nat)
    requires n <= |items|
    requires forall k | 0 <= k < n :: crashed(k)
    ensures Survivors(items, step, crashed, n) == []
    decreases n
  {
    if n > 0 {
      AllCrashedGivesNothing(items, step, crashed, n - 1);
    }
  }

  /** `step` applied to every item, one after another. */
  method MapInOrder(items: seq<NewsItem>, step: NewsItem -> NewsItem) returns (out: seq<NewsItem>)
    ensures |out| == |items|
    ensures forall i | 0 <= i < |items| :: out[i] == step(items[i])
  {
    out := [];
    var i := 0;
    while i < |items|
      invariant 0 <= i <= |items|
      invariant |out| == i
      invariant forall k | 0 <= k < i :: out[k] == step(items[k])
    {
      out := out + [step(items[i])];
      i := i + 1;
    }
  }

  /** The results of `step` over the items, in order, leaving out the tasks that crashed. */
  method CollectInOrder(items: seq<NewsItem>, step: NewsItem -> NewsItem, crashed: nat -> bool)
    returns (out: seq<NewsItem>)
    ensures |out| <= |items|
    ensures |out| == |items| <==> forall i | 0 <= i < |items| :: !crashed(i)
    ensures |out| == |items| ==> forall i | 0 <= i < |items| :: out[i] == step(items[i])
    ensures out == Survivors(items, step, crashed, |items|)
  {
    out := [];
    var i := 0;
    while i < |items|
      invariant 0 <= i <= |items|
      invariant out == Survivors(items, step, crashed, i)
      invariant |out| <= i
      invariant |out| == i <==> forall k | 0 <= k < i :: !crashed(k)
      invariant |out| == i ==> forall k | 0 <= k < i :: out[k] == step(items[k])
    {
      if !crashed(i) {
        out := out + [step(items[i])];
      }
      i := i + 1;
    }
  }

  /**
   * `summarize_items`: fails only when the chosen provider cannot be
   * constructed; otherwise, whatever the worker count and whichever workers
   * fail, returns one summarized item per input item, in input order.
   */
  method SummarizeItems(items: seq<NewsItem>, opts: SummarizeOptions, backend: Backend, crashed: nat -> bool)
    returns (result: Result<seq<NewsItem>, SetupError>)
    ensures result.Failure? <==> !Ready(BuildSummarizer(Some(opts)), backend)
    ensures result.Success? ==> |result.value| == |items|
    ensures result.Success? ==>
              forall i | 0 <= i < |items| ::
                result.value[i] == SummarizeOne(items[i], opts, BuildSummarizer(Some(opts)), backend)
  {
    var p := BuildSummarizer(Some(opts));
    if !Ready(p, backend) {
      return Failure(ProviderUnavailable(p));
    }
    var out;
    if Workers(opts.maxWorkers) == 1 {
      out := SummarizeSerially(items, opts, p, backend);
    } else {
      out := CollectPooled(items, opts, p, backend, crashed);
      if |out| != |items| {
        out := SummarizeSerially(items, opts, p, backend);
      }
    }
    return Success(out);
  }

  /**
   * When every provider call fails and the strategy replaces, the stage
   * returns its input unchanged.
   */
  lemma AllFailuresKeepItems(items: seq<NewsItem>, opts: SummarizeOptions, p: Provider, backend: Backend)
    requires opts.strategy != "append"
    requires forall i | 0 <= i < |items| :: Invoke(p, backend, PromptFor(items[i], opts)).None?
    ensures forall i | 0 <= i < |items| :: SummarizeOne(items[i], opts, p, backend) == items[i]
  {
  }
}
