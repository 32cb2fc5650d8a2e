/**
 * Mapping one raw feed entry to the eight-field record the rest of the
 * pipeline works on (`parse_entry`). The conversions the program delegates
 * to libraries are parameters: see `Collaborators`.
 */
module Parser {
  import opened Wrappers
  import opened Text

  /** A time tuple as the feed library delivers it; its fields are not interpreted here. */
  datatype StructTime = StructTime(fields: seq<int>)

  /** One element of the entry's `tags` list: a mapping with an optional `term`, or anything else. */
  datatype Tag = TermTag(term: Option<string>) | NonDictTag

  /** The entry's embedded `source`: a mapping with an optional `title`, or anything else. */
  datatype EmbeddedSource = SourceDict(title: Option<string>) | NonDictSource

  /**
   * A raw feed entry. Every string field is `None` when the key is missing.
   * `tags` is the empty sequence when the key is missing or is not a list;
   * the `*Parsed` fields are `None` when missing or not a time tuple.
   */
  datatype RawEntry = RawEntry(
    title: Option<string>,
    summary: Option<string>,
    description: Option<string>,
    link: Option<string>,
    feedburnerOrigLink: Option<string>,
    id: Option<string>,
    guid: Option<string>,
    tags: seq<Tag>,
    publishedParsed: Option<StructTime>,
    updatedParsed: Option<StructTime>,
    createdParsed: Option<StructTime>,
    published: Option<string>,
    updated: Option<string>,
    created: Option<string>,
    source: Option<EmbeddedSource>,
    language: Option<string>,
    dcLanguage: Option<string>,
    lang: Option<string>)

  /**
   * The library calls parsing depends on, each `None` where the call raises or
   * yields nothing usable:
   *  - `toTimestamp`: converting a time tuple to an instant (`mktime` then `fromtimestamp`);
   *  - `parseDate`: the feed library's date-string parser;
   *  - `netloc`: the network-location part of a URL.
   */
  datatype Collaborators = Collaborators(
    toTimestamp: StructTime -> Option<int>,
    parseDate: string -> Option<StructTime>,
    netloc: string -> Option<string>)

  /** The parsed entry: always exactly these eight fields. */
  datatype Record = Record(
    title: string,
    summary: string,
    link: string,
    source: string,
    publishedAt: Option<int>,
    language: Option<string>,
    category: Option<string>,
    guid: Option<string>)

  const UnknownSource := "unknown"

  // ----- publication date -----

  /** The instant of a `*_parsed` field, if it holds a time tuple that converts. */
  function FromTimeTuple(v: Option<StructTime>, env: Collaborators): Option<int> {
    match v
    case Some(st) => env.toTimestamp(st)
    case None => None
  }

  /** The instant of a raw date string, if it is non-empty, parses and converts. */
  function FromDateString(v: Option<string>, env: Collaborators): Option<int> {
    if Truthy(v) then
      match env.parseDate(v.value)
      case Some(st) => env.toTimestamp(st)
      case None => None
    else None
  }

  /** The date sources in the order they are tried. */
  function DateCandidates(raw: RawEntry, env: Collaborators): (c: seq<Option<int>>)
    ensures |c| == 6
  {
    [ FromTimeTuple(raw.publishedParsed, env),
      FromTimeTuple(raw.updatedParsed, env),
      FromTimeTuple(raw.createdParsed, env),
      FromDateString(raw.published, env),
      FromDateString(raw.updated, env),
      FromDateString(raw.created, env) ]
  }

  /** The first present value of `c`: the first candidate that converts wins. */
  function FirstPresent(c: seq<Option<int>>): (r: Option<int>)
    ensures r.None? <==> forall i | 0 <= i < |c| :: c[i].None?
    decreases |c|
  {
    if |c| == 0 then None
    else if c[0].Some? then c[0]
    else FirstPresent(c[1..])
  }

  /** A present result of `FirstPresent` is some candidate, and every candidate before it is absent. */
  lemma {:induction false} FirstPresentIsFirst(c: seq<Option<int>>)
    ensures FirstPresent(c).Some? ==>
              exists i | 0 <= i < |c| :: c[i] == FirstPresent(c) && forall j | 0 <= j < i :: c[j].None?
    decreases |c|
  {
    if |c| > 0 && c[0].None? && FirstPresent(c).Some? {
      var r := FirstPresent(c[1..]);
      FirstPresentIsFirst(c[1..]);
      var i :| 0 <= i < |c[1..]| && c[1..][i] == r && forall j | 0 <= j < i :: c[1..][j].None?;
      assert c[i + 1] == r;
      forall j | 0 <= j < i + 1
        ensures c[j].None?
      {
        if j > 0 { assert c[j] == c[1..][j - 1]; }
      }
    }
  }

  /**
   * `_to_datetime`: the first of `published_parsed`, `updated_parsed`,
   * `created_parsed` that converts, then the first of the strings
   * `published`, `updated`, `created` that parses and converts, else `None`.
   */
  function ToDatetime(raw: RawEntry, env: Collaborators): (r: Option<int>)
    ensures FromTimeTuple(raw.publishedParsed, env).Some? ==> r == FromTimeTuple(raw.publishedParsed, env)
    ensures r.Some? ==> r in DateCandidates(raw, env)
  {
    var tuple := FromTimeTuple(raw.publishedParsed, env);
    if tuple.Some? then tuple
    else
      var tuple := FromTimeTuple(raw.updatedParsed, env);
      if tuple.Some? then tuple
      else
        var tuple := FromTimeTuple(raw.createdParsed, env);
        if tuple.Some? then tuple
        else
          var text := FromDateString(raw.published, env);
          if text.Some? then text
          else
            var text := FromDateString(raw.updated, env);
            if text.Some? then text
            else FromDateString(raw.created, env)
  }

  /**
   * The date is the highest-priority candidate that converts, and absent
   * exactly when none does.
   */
  lemma DatePriority(raw: RawEntry, env: Collaborators)
    ensures ToDatetime(raw, env) == FirstPresent(DateCandidates(raw, env))
    ensures ToDatetime(raw, env).None? <==>
              forall i | 0 <= i < 6 :: DateCandidates(raw, env)[i].None?
  {
    var c := DateCandidates(raw, env);
    FirstOfSix(c);
    assert c[0] == FromTimeTuple(raw.publishedParsed, env) && c[1] == FromTimeTuple(raw.updatedParsed, env);
    assert c[2] == FromTimeTuple(raw.createdParsed, env) && c[3] == FromDateString(raw.published, env);
    assert c[4] == FromDateString(raw.updated, env) && c[5] == FromDateString(raw.created, env);
  }

  /** On six candidates, `FirstPresent` is the chain of tests `ToDatetime` spells out. */
  lemma FirstOfSix(c: seq<Option<int>>)
    requires |c| == 6
    ensures FirstPresent(c) ==
              if c[0].Some? then c[0] else if c[1].Some? then c[1] else if c[2].Some? then c[2]
              else if c[3].Some? then c[3] else if c[4].Some? then c[4] else c[5]
  {
    var c1 := c[1..];
    var c2 := c1[1..];
    var c3 := c2[1..];
    var c4 := c3[1..];
    var c5 := c4[1..];
    assert c5[1..] == [];
    assert FirstPresent(c5) == (if c5[0].Some? then c5[0] else None);
    assert FirstPresent(c4) == (if c4[0].Some? then c4[0] else FirstPresent(c5));
    assert FirstPresent(c3) == (if c3[0].Some? then c3[0] else FirstPresent(c4));
    assert FirstPresent(c2) == (if c2[0].Some? then c2[0] else FirstPresent(c3));
    assert FirstPresent(c1) == (if c1[0].Some? then c1[0] else FirstPresent(c2));
  }

  // ----- source -----

  /** The embedded feed title, when the entry's `source` is a mapping with a string `title`. */
  function EmbeddedTitle(raw: RawEntry): Option<string> {
    match raw.source
    case Some(SourceDict(t)) => t
    case _ => None
  }

  /** The non-empty host of a non-empty link, when host extraction succeeds. */
  function HostOf(link: Option<string>, env: Collaborators): (h: Option<string>)
    ensures h.Some? <==> Truthy(link) && Truthy(env.netloc(link.value))
    ensures h.Some? ==> h == env.netloc(link.value) && h.value != ""
  {
    if Truthy(link) then
      var host := env.netloc(link.value);
      if Truthy(host) then host else None
    else None
  }

  /**
   * `_get_source`: the stripped embedded feed title when it is not blank;
   * else the host of `feedburner_origlink`, then of `link`; else "unknown".
   */
  function GetSource(raw: RawEntry, env: Collaborators): (src: string)
    ensures src != ""
    ensures EmbeddedTitle(raw).Some? && Strip(EmbeddedTitle(raw).value) != "" ==>
              src == Strip(EmbeddedTitle(raw).value)
    ensures (EmbeddedTitle(raw).None? || Strip(EmbeddedTitle(raw).value) == "") ==>
              src == HostOf(raw.feedburnerOrigLink, env).GetOr(HostOf(raw.link, env).GetOr(UnknownSource))
  {
    var t := EmbeddedTitle(raw);
    if t.Some? && Strip(t.value) != "" then Strip(t.value)
    else
      var origin := HostOf(raw.feedburnerOrigLink, env);
      if origin.Some? then origin.value
      else
        var host := HostOf(raw.link, env);
        if host.Some? then host.value else UnknownSource
  }

  // ----- language, guid, category -----

  /**
   * `_get_language`: the lower-cased first truthy of `language`,
   * `dc_language`; failing both, whatever `lang` holds (possibly "").
   */
  function GetLanguage(raw: RawEntry): (r: Option<string>)
    ensures r.Some? ==> Lower(r.value) == r.value
    ensures r.None? <==> !Truthy(raw.language) && !Truthy(raw.dcLanguage) && raw.lang.None?
    ensures Truthy(raw.language) ==> r == Some(Lower(raw.language.value))
    ensures !Truthy(raw.language) && Truthy(raw.dcLanguage) ==> r == Some(Lower(raw.dcLanguage.value))
    ensures !Truthy(raw.language) && !Truthy(raw.dcLanguage) && raw.lang.Some? ==> r == Some(Lower(raw.lang.value))
  {
    match Or(Or(raw.language, raw.dcLanguage), raw.lang)
    case Some(l) =>
      LowerIdempotent(l);
      Some(Lower(l))
    case None => None
  }

  /** The stripped value of the first of `id`, `guid` that is not blank. */
  function GetGuid(raw: RawEntry): (g: Option<string>)
    ensures g.Some? ==> g.value != "" && Stripped(g.value)
    ensures g.None? <==>
              (raw.id.None? || Strip(raw.id.value) == "") && (raw.guid.None? || Strip(raw.guid.value) == "")
    ensures raw.id.Some? && Strip(raw.id.value) != "" ==> g == Some(Strip(raw.id.value))
    ensures (raw.id.None? || Strip(raw.id.value) == "") && raw.guid.Some? && Strip(raw.guid.value) != "" ==>
              g == Some(Strip(raw.guid.value))
  {
    if raw.id.Some? && Strip(raw.id.value) != "" then Some(Strip(raw.id.value))
    else if raw.guid.Some? && Strip(raw.guid.value) != "" then Some(Strip(raw.guid.value))
    else None
  }

  /** The stripped `term` of the first tag, when it is a mapping with a non-blank term. */
  function GetCategory(raw: RawEntry): (c: Option<string>)
    ensures c.Some? ==> c.value != "" && Stripped(c.value)
    ensures c.Some? <==> |raw.tags| > 0 && raw.tags[0].TermTag? && raw.tags[0].term.Some?
                         && Strip(raw.tags[0].term.value) != ""
    ensures c.Some? ==> c.value == Strip(raw.tags[0].term.value)
  {
    if |raw.tags| > 0 then
      match raw.tags[0]
      case TermTag(Some(term)) => if Strip(term) != "" then Some(Strip(term)) else None
      case _ => None
    else None
  }

  // ----- the record -----

  /**
   * `parse_entry`: never fails, and always yields all eight fields; the
   * text fields carry no surrounding whitespace and the source is never empty.
   * The metadata fields are the values of the helpers above, whose contracts
   * give them in terms of the raw entry.
   */
  function ParseEntry(raw: RawEntry, env: Collaborators): (r: Record)
    ensures r.source != ""
    ensures Stripped(r.title) && Stripped(r.summary) && Stripped(r.link)
    ensures r.guid.Some? ==> r.guid.value != "" && Stripped(r.guid.value)
    ensures r.category.Some? ==> r.category.value != "" && Stripped(r.category.value)
    ensures r.language.Some? ==> Lower(r.language.value) == r.language.value
    ensures r.publishedAt.None? <==> forall i | 0 <= i < 6 :: DateCandidates(raw, env)[i].None?
    ensures r.source == GetSource(raw, env) && r.publishedAt == ToDatetime(raw, env)
    ensures r.language == GetLanguage(raw) && r.category == GetCategory(raw) && r.guid == GetGuid(raw)
  {
    DatePriority(raw, env);
    Record(
      title := Strip(raw.title.GetOr("")),
      summary := Strip(Or(raw.summary, raw.description).GetOr("")),
      link := Strip(Or(raw.link, raw.feedburnerOrigLink).GetOr("")),
      source := GetSource(raw, env),
      publishedAt := ToDatetime(raw, env),
      language := GetLanguage(raw),
      category := GetCategory(raw),
      guid := GetGuid(raw))
  }

  /**
   * The fallback chains of the text fields: title from `title`; summary from
   * `summary`, else `description`; link from `link`, else
   * `feedburner_origlink`; each stripped, "" when all are missing or empty.
   */
  lemma TextFieldFallbacks(raw: RawEntry, env: Collaborators)
    ensures ParseEntry(raw, env).title == (if raw.title.Some? then Strip(raw.title.value) else "")
    ensures Truthy(raw.summary) ==> ParseEntry(raw, env).summary == Strip(raw.summary.value)
    ensures !Truthy(raw.summary) && Truthy(raw.description) ==>
              ParseEntry(raw, env).summary == Strip(raw.description.value)
    ensures !Truthy(raw.summary) && !Truthy(raw.description) ==> ParseEntry(raw, env).summary == ""
    ensures Truthy(raw.link) ==> ParseEntry(raw, env).link == Strip(raw.link.value)
    ensures !Truthy(raw.link) && Truthy(raw.feedburnerOrigLink) ==>
              ParseEntry(raw, env).link == Strip(raw.feedburnerOrigLink.value)
    ensures !Truthy(raw.link) && !Truthy(raw.feedburnerOrigLink) ==> ParseEntry(raw, env).link == ""
  {
    assert Strip("") == "";
  }

  /** Every field the classifier strips again is already stripped, so re-stripping changes nothing. */
  lemma ParsedFieldsStable(raw: RawEntry, env: Collaborators)
    ensures var r := ParseEntry(raw, env);
            && Strip(r.title) == r.title && Strip(r.summary) == r.summary && Strip(r.link) == r.link
            && (r.category.Some? ==> Strip(r.category.value) == r.category.value)
  {
    var r := ParseEntry(raw, env);
    StripKeepsStripped(r.title);
    StripKeepsStripped(r.summary);
    StripKeepsStripped(r.link);
    if r.category.Some? {
      StripKeepsStripped(r.category.value);
    }
  }

  /** `[parse_entry(e) for e in entries]`. */
  function ParseAll(raws: seq<RawEntry>, env: Collaborators): (recs: seq<Record>)
    ensures |recs| == |raws|
    ensures forall i | 0 <= i < |raws| :: recs[i] == ParseEntry(raws[i], env)
    decreases |raws|
  {
    if |raws| == 0 then []
    else [ParseEntry(raws[0], env)] + ParseAll(raws[1..], env)
  }
}
