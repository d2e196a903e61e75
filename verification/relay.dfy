/** The script hermes-relay.py: its feed list and `fetch_and_parse` as the
    nested loop it is, over the feeds and then over each feed's entries. */
module Relay {
  import opened Fingerprint
  import opened Entry
  import opened Dedup
  import opened Ingest

  /** `FEEDS`: the feeds the script reads, in order. */
  const Feeds: seq<string> := [
    "https://krebsonsecurity.com/feed/",
    "https://www.bleepingcomputer.com/feed/",
    "https://www.mandiant.com/resources/rss",
    "https://www.microsoft.com/en-us/security/blog/feed/",
    "https://blog.google/threat-analysis-group/rss/",
    "https://unit42.paloaltonetworks.com/feed/",
    "https://www.cisa.gov/alerts.xml",
    "https://www.cisa.gov/advisories.xml",
    "https://www.darkreading.com/rss.xml"
  ]

  /** The entries `parse` yields for each url, in order. */
  function FetchAll(parse: string -> seq<RawEntry>, urls: seq<string>): seq<seq<RawEntry>> {
    seq(|urls|, i requires 0 <= i < |urls| => parse(urls[i]))
  }

  lemma AppendTakeSnoc<T>(a: seq<T>, s: seq<T>, k: int)
    requires 0 <= k < |s|
    ensures a + s[..k + 1] == (a + s[..k]) + [s[k]]
  {
    assert s[..k + 1] == s[..k] + [s[k]];
  }

  /** `fetch_and_parse()`, run on `urls` (the script passes `Feeds`) from
      empty globals; `parse` stands for `feedparser.parse(url).entries`.
      The results are the final `seen_hashes` and `all_items`. */
  method FetchAndParse(parse: string -> seq<RawEntry>, hash: Hash, urls: seq<string>)
    returns (seenHashes: set<Digest>, allItems: seq<Item>)
    ensures State(seenHashes, allItems) == Run(hash, FetchAll(parse, urls))
    ensures seenHashes == Uids(ItemFingerprint(hash), allItems)
    ensures DistinctUids(ItemFingerprint(hash), allItems)
  {
    ghost var feeds := FetchAll(parse, urls);
    ghost var fp := ItemFingerprint(hash);
    seenHashes, allItems := {}, [];
    var u := 0;
    while u < |urls|
      invariant 0 <= u <= |urls|
      invariant State(seenHashes, allItems) == Fold(Normalise, fp, Initial(), Flatten(feeds[..u]))
    {
      var entries := parse(urls[u]);
      ghost var before := Flatten(feeds[..u]);
      var k := 0;
      assert before + entries[..k] == before;
      while k < |entries|
        invariant 0 <= k <= |entries|
        invariant State(seenHashes, allItems) == Fold(Normalise, fp, Initial(), before + entries[..k])
      {
        var entry := entries[k];
        AppendTakeSnoc(before, entries, k);
        FoldSnoc(Normalise, fp, Initial(), before + entries[..k], entry);
        var item := Normalise(entry);
        var uid := HashItem(hash, item.title, item.link);
        assert uid == Uid(Normalise, fp, entry);
        if uid !in seenHashes {
          seenHashes := seenHashes + {uid};
          allItems := allItems + [item];
        }
        k := k + 1;
      }
      assert entries[..k] == entries;
      assert feeds[..u + 1][..u] == feeds[..u];
      u := u + 1;
    }
    assert feeds[..u] == feeds;
    FoldConsistent(Normalise, fp, Initial(), Flatten(feeds));
  }

  /** The script's entry point up to `save_output()`: one `fetch_and_parse()`
      over `FEEDS`. The items it hands to `save_output` are the first
      occurrences of the fingerprints over the nine feeds, in order. */
  method RunScript(parse: string -> seq<RawEntry>, hash: Hash)
    returns (seenHashes: set<Digest>, allItems: seq<Item>)
    ensures allItems == FirstOccurrences(Normalise, ItemFingerprint(hash), Flatten(FetchAll(parse, Feeds)))
    ensures seenHashes == Seen(Normalise, ItemFingerprint(hash), Flatten(FetchAll(parse, Feeds)))
    ensures seenHashes == Uids(ItemFingerprint(hash), allItems)
  {
    seenHashes, allItems := FetchAndParse(parse, hash, Feeds);
    RunIsFirstOccurrences(hash, FetchAll(parse, Feeds));
  }
}
