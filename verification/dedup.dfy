/** Removing duplicate items while keeping the first of each (`deduplicate`). */
module Dedup {
  import opened Wrappers
  import opened Text
  import opened Models
  import Seqs

  /**
   * A deduplication key: the tagged strings "guid::<guid>" and
   * "link::<link>", or the (title, source) pair that the program hashes.
   */
  datatype Key = Tagged(text: string) | TitleSource(title: string, source: string)

  /** `make_key`: the guid if present, else the link if present, else title and source. */
  function MakeKey(it: NewsItem): (k: Key)
    ensures k.TitleSource? <==> !Truthy(it.guid) && it.link == ""
  {
    if Truthy(it.guid) then Tagged("guid::" + it.guid.value)
    else if it.link != "" then Tagged("link::" + it.link)
    else TitleSource(it.title, it.source)
  }

  /** The keys of all items of `items`. */
  function KeysOf(items: seq<NewsItem>): set<Key> {
    set it | it in items :: MakeKey(it)
  }

  /** No two positions of `items` share a key. */
  predicate UniqueKeys(items: seq<NewsItem>) {
    forall i, j | 0 <= i < j < |items| :: MakeKey(items[i]) != MakeKey(items[j])
  }

  /** Position `i` holds the first item with its key, and that key is not in `seen`. */
  predicate FirstUnseen(items: seq<NewsItem>, seen: set<Key>, i: int)
    requires 0 <= i < |items|
  {
    MakeKey(items[i]) !in seen && forall j | 0 <= j < i :: MakeKey(items[j]) != MakeKey(items[i])
  }

  /**
   * The loop of `deduplicate` from a state where the keys in `seen` are
   * already taken: keep each item whose key is new, then remember that key.
   */
  function DedupFrom(items: seq<NewsItem>, seen: set<Key>): (out: seq<NewsItem>)
    ensures |out| <= |items|
    ensures forall i | 0 <= i < |out| :: out[i] in items && MakeKey(out[i]) !in seen
    decreases |items|
  {
    if |items| == 0 then []
    else
      var k := MakeKey(items[0]);
      if k in seen then DedupFrom(items[1..], seen)
      else [items[0]] + DedupFrom(items[1..], seen + {k})
  }

  /** `deduplicate`. */
  function Deduplicate(items: seq<NewsItem>): (out: seq<NewsItem>)
    ensures |out| <= |items|
    ensures forall x | x in out :: x in items
  {
    DedupFrom(items, {})
  }

  /** The output keeps the input's order: it is a subsequence. */
  lemma {:induction false} DedupFromIsSubsequence(items: seq<NewsItem>, seen: set<Key>)
    ensures Seqs.IsSubsequence(DedupFrom(items, seen), items)
    decreases |items|
  {
    if |items| > 0 {
      var k := MakeKey(items[0]);
      var seen' := if k in seen then seen else seen + {k};
      DedupFromIsSubsequence(items[1..], seen');
      var out := DedupFrom(items, seen);
      if k !in seen {
        assert out[0] == items[0] && out[1..] == DedupFrom(items[1..], seen');
      }
    }
  }

  /** No two output items share a key. */
  lemma {:induction false} DedupFromUnique(items: seq<NewsItem>, seen: set<Key>)
    ensures UniqueKeys(DedupFrom(items, seen))
    decreases |items|
  {
    if |items| > 0 {
      var k := MakeKey(items[0]);
      if k in seen {
        DedupFromUnique(items[1..], seen);
      } else {
        var rest := DedupFrom(items[1..], seen + {k});
        DedupFromUnique(items[1..], seen + {k});
        assert forall j | 0 <= j < |rest| :: MakeKey(rest[j]) != k;
        ConsUnique(items[0], rest);
        assert DedupFrom(items, seen) == [items[0]] + rest;
      }
    }
  }

  /** Putting an item with a fresh key in front keeps keys distinct. */
  lemma ConsUnique(x: NewsItem, rest: seq<NewsItem>)
    requires UniqueKeys(rest)
    requires forall j | 0 <= j < |rest| :: MakeKey(rest[j]) != MakeKey(x)
    ensures UniqueKeys([x] + rest)
  {
    var out := [x] + rest;
    forall i, j | 0 <= i < j < |out| ensures MakeKey(out[i]) != MakeKey(out[j]) {
      assert out[j] == rest[j - 1];
      if i > 0 {
        assert out[i] == rest[i - 1];
      }
    }
  }

  /**
   * Exactly the first unseen item of each key is kept: every such item is in
   * the output, and every output item is such an item.
   */
  lemma {:induction false} DedupFromKeepsFirsts(items: seq<NewsItem>, seen: set<Key>)
    ensures forall i | 0 <= i < |items| && FirstUnseen(items, seen, i) :: items[i] in DedupFrom(items, seen)
    ensures forall x | x in DedupFrom(items, seen) ::
              exists i | 0 <= i < |items| :: items[i] == x && FirstUnseen(items, seen, i)
    decreases |items|
  {
    if |items| > 0 {
      var k := MakeKey(items[0]);
      var seen' := if k in seen then seen else seen + {k};
      var tail := items[1..];
      DedupFromKeepsFirsts(tail, seen');
      var out := DedupFrom(items, seen);
      var rest := DedupFrom(tail, seen');
      assert out == (if k in seen then rest else [items[0]] + rest);
      forall i | 0 <= i < |items| && FirstUnseen(items, seen, i) ensures items[i] in out {
        if i > 0 {
          assert MakeKey(items[0]) != MakeKey(items[i]);
          assert items[i] == tail[i - 1];
          assert FirstUnseen(tail, seen', i - 1) by {
            forall j | 0 <= j < i - 1 ensures MakeKey(tail[j]) != MakeKey(tail[i - 1]) {
              assert tail[j] == items[j + 1];
            }
          }
        }
      }
      forall x | x in out ensures exists i | 0 <= i < |items| :: items[i] == x && FirstUnseen(items, seen, i) {
        if k !in seen && x == items[0] {
          assert FirstUnseen(items, seen, 0);
        } else {
          assert x in rest;
          var i' :| 0 <= i' < |tail| && tail[i'] == x && FirstUnseen(tail, seen', i');
          assert items[i' + 1] == x;
          assert FirstUnseen(items, seen, i' + 1) by {
            forall j | 0 <= j < i' + 1 ensures MakeKey(items[j]) != MakeKey(items[i' + 1]) {
              if j > 0 { assert items[j] == tail[j - 1]; }
            }
          }
        }
      }
    }
  }

  /** Input already free of duplicates and of taken keys passes through unchanged. */
  lemma {:induction false} DedupFromNoDuplicates(items: seq<NewsItem>, seen: set<Key>)
    requires UniqueKeys(items)
    requires forall i | 0 <= i < |items| :: MakeKey(items[i]) !in seen
    ensures DedupFrom(items, seen) == items
    decreases |items|
  {
    if |items| > 0 {
      var k := MakeKey(items[0]);
      var tail := items[1..];
      forall i | 0 <= i < |tail| ensures MakeKey(tail[i]) !in seen + {k} {
        assert tail[i] == items[i + 1];
      }
      DedupFromNoDuplicates(tail, seen + {k});
      assert [items[0]] + tail == items;
    }
  }

  /**
   * `deduplicate` keeps a subsequence of its input with pairwise distinct
   * keys: precisely the first item of every key, so each input key appears
   * in the output once.
   */
  lemma DeduplicateSpec(items: seq<NewsItem>)
    ensures Seqs.IsSubsequence(Deduplicate(items), items)
    ensures UniqueKeys(Deduplicate(items))
    ensures KeysOf(Deduplicate(items)) == KeysOf(items)
    ensures forall i | 0 <= i < |items| && FirstUnseen(items, {}, i) :: items[i] in Deduplicate(items)
    ensures forall x | x in Deduplicate(items) ::
              exists i | 0 <= i < |items| :: items[i] == x && FirstUnseen(items, {}, i)
  {
    DedupFromIsSubsequence(items, {});
    DedupFromUnique(items, {});
    DedupFromKeepsFirsts(items, {});
    var out := Deduplicate(items);
    forall key | key in KeysOf(items) ensures key in KeysOf(out) {
      var x :| x in items && MakeKey(x) == key;
      var i := FirstWithKey(items, key);
      assert items[i] in out;
    }
  }

  /** The position of the first item with a key that some item has. */
  lemma FirstWithKey(items: seq<NewsItem>, key: Key) returns (i: int)
    requires key in KeysOf(items)
    ensures 0 <= i < |items| && MakeKey(items[i]) == key && FirstUnseen(items, {}, i)
  {
    var x :| x in items && MakeKey(x) == key;
    var j :| 0 <= j < |items| && items[j] == x;
    i := j;
    while exists m | 0 <= m < i :: MakeKey(items[m]) == key
      invariant 0 <= i < |items| && MakeKey(items[i]) == key
      decreases i
    {
      var m :| 0 <= m < i && MakeKey(items[m]) == key;
      i := m;
    }
  }

  /** Deduplicating twice is the same as deduplicating once. */
  lemma DeduplicateIdempotent(items: seq<NewsItem>)
    ensures Deduplicate(Deduplicate(items)) == Deduplicate(items)
  {
    DedupFromUnique(items, {});
    DedupFromNoDuplicates(Deduplicate(items), {});
  }

  /**
   * Two items with the same link, one with guid "g1" and one without, are
   * keyed "guid::g1" and "link::<link>", so both are kept.
   */
  lemma GuidAndLinkKeysDiffer(a: NewsItem, b: NewsItem)
    requires a.link == b.link == "https://x.test/a"
    requires a.guid == Some("g1") && b.guid.None?
    ensures MakeKey(a) == Tagged("guid::g1") && MakeKey(b) == Tagged("link::https://x.test/a")
    ensures Deduplicate([a, b]) == [a, b]
  {
    assert MakeKey(a) == Tagged("guid::" + "g1") == Tagged("guid::g1");
    assert MakeKey(b) == Tagged("link::" + "https://x.test/a") == Tagged("link::https://x.test/a");
    GuidKeyNeverLinkKey(a, b);
    DistinctPairKept(a, b);
  }

  /** Two items with different keys are both kept, in order. */
  lemma DistinctPairKept(a: NewsItem, b: NewsItem)
    requires MakeKey(a) != MakeKey(b)
    ensures Deduplicate([a, b]) == [a, b]
  {
    assert [a, b][1..] == [b] && [b][1..] == [];
    assert DedupFrom([b], {MakeKey(a)}) == [b];
    assert DedupFrom([a, b], {}) == [a] + DedupFrom([b], {MakeKey(a)});
  }

  /** A guid key never equals a link key: the "guid::" and "link::" tags differ. */
  lemma GuidKeyNeverLinkKey(a: NewsItem, b: NewsItem)
    requires Truthy(a.guid) && !Truthy(b.guid)
    ensures MakeKey(a) != MakeKey(b)
  {
    if b.link != "" {
      assert MakeKey(a).text[0] == 'g' && MakeKey(b).text[0] == 'l';
    }
  }

  /**
   * When two items count as the same story: equal guids when either has
   * one; otherwise equal links when either has one; otherwise equal title
   * and source.
   */
  predicate SameStory(a: NewsItem, b: NewsItem) {
    if Truthy(a.guid) || Truthy(b.guid) then Truthy(a.guid) && Truthy(b.guid) && a.guid.value == b.guid.value
    else if a.link != "" || b.link != "" then a.link == b.link
    else a.title == b.title && a.source == b.source
  }

  /** Two items share a key exactly when they are the same story. */
  lemma SameKeyIffSameStory(a: NewsItem, b: NewsItem)
    ensures MakeKey(a) == MakeKey(b) <==> SameStory(a, b)
  {
    var ka, kb := MakeKey(a), MakeKey(b);
    if ka.Tagged? && kb.Tagged? {
      assert ka.text[6..] == (if Truthy(a.guid) then a.guid.value else a.link);
      assert kb.text[6..] == (if Truthy(b.guid) then b.guid.value else b.link);
      if Truthy(a.guid) != Truthy(b.guid) {
        assert ka.text[0] != kb.text[0];
      }
    }
  }
}
