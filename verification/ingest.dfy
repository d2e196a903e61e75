/** `fetch_and_parse` on already-parsed feeds: the dedup fold instantiated
    with the entry normalisation of hermes-relay.py and `hash_item`. */
module Ingest {
  import opened Text
  import opened Fingerprint
  import opened Entry
  import opened Dedup

  /** The fingerprint of a kept item: `hash_item(title, link)`. */
  function ItemFingerprint(hash: Hash): Item -> Digest {
    (it: Item) => HashItem(hash, it.title, it.link)
  }

  /** The key hashed for a raw entry: its stripped title and stripped link. */
  function EntryKey(e: RawEntry): string {
    Key(Normalise(e).title, Normalise(e).link)
  }

  /** All entries of all feeds, feed after feed. */
  function Flatten(feeds: seq<seq<RawEntry>>): seq<RawEntry>
    decreases |feeds|
  {
    if feeds == [] then []
    else Flatten(feeds[..|feeds| - 1]) + feeds[|feeds| - 1]
  }

  /** `seen_hashes` and `all_items` after `fetch_and_parse()` has walked the
      given parsed feeds, starting from the empty globals. */
  function Run(hash: Hash, feeds: seq<seq<RawEntry>>): State<Item, Digest> {
    Fold(Normalise, ItemFingerprint(hash), Initial(), Flatten(feeds))
  }

  /** The fingerprint computed for a raw entry is `hash_item` of its key. */
  lemma UidIsHashOfKey(hash: Hash, e: RawEntry)
    ensures Uid(Normalise, ItemFingerprint(hash), e) == hash(EntryKey(e))
  {
  }

  /** `seen_hashes` is the set of fingerprints of `all_items`; no two kept
      items share a fingerprint, hence none share their (title, link) pair;
      and there are as many fingerprints as items, at most one per entry. */
  lemma RunInvariants(hash: Hash, feeds: seq<seq<RawEntry>>)
    ensures Run(hash, feeds).seen == Uids(ItemFingerprint(hash), Run(hash, feeds).items)
    ensures DistinctUids(ItemFingerprint(hash), Run(hash, feeds).items)
    ensures |Run(hash, feeds).seen| == |Run(hash, feeds).items| <= |Flatten(feeds)|
    ensures forall i, j :: 0 <= i < j < |Run(hash, feeds).items| ==>
      (Run(hash, feeds).items[i].title, Run(hash, feeds).items[i].link)
        != (Run(hash, feeds).items[j].title, Run(hash, feeds).items[j].link)
  {
    var fp := ItemFingerprint(hash);
    var items := Run(hash, feeds).items;
    FoldConsistent(Normalise, fp, Initial(), Flatten(feeds));
    forall i, j | 0 <= i < j < |items|
      ensures (items[i].title, items[i].link) != (items[j].title, items[j].link)
    {
      assert fp(items[i]) != fp(items[j]);
    }
  }

  /** Every entry walked, in any feed, is represented among the kept items
      by exactly one item, the one with its fingerprint: an article listed
      by two feeds is kept once. */
  lemma RunKeepsEachFingerprintOnce(hash: Hash, feeds: seq<seq<RawEntry>>)
    ensures forall i :: 0 <= i < |Flatten(feeds)| ==>
      exists j :: 0 <= j < |Run(hash, feeds).items|
        && ItemFingerprint(hash)(Run(hash, feeds).items[j])
           == Uid(Normalise, ItemFingerprint(hash), Flatten(feeds)[i])
    ensures forall j, k :: 0 <= j < k < |Run(hash, feeds).items| ==>
      ItemFingerprint(hash)(Run(hash, feeds).items[j]) != ItemFingerprint(hash)(Run(hash, feeds).items[k])
  {
    var fp := ItemFingerprint(hash);
    var es := Flatten(feeds);
    var items := Run(hash, feeds).items;
    FoldRepresentsEveryEntry(Normalise, fp, es);
    assert items == Fold(Normalise, fp, Initial(), es).items;
    assert DistinctUids(fp, items);
  }

  /** Over all feeds, in feed-then-entry order, the kept items are those of
      the entries whose `hash_item` fingerprint no earlier entry had, and
      `seen_hashes` ends as the fingerprints of all entries walked. */
  lemma RunIsFirstOccurrences(hash: Hash, feeds: seq<seq<RawEntry>>)
    ensures Run(hash, feeds).items == FirstOccurrences(Normalise, ItemFingerprint(hash), Flatten(feeds))
    ensures Run(hash, feeds).seen == Seen(Normalise, ItemFingerprint(hash), Flatten(feeds))
  {
    FoldIsFirstOccurrences(Normalise, ItemFingerprint(hash), Flatten(feeds));
  }

  /** The keys hashed over a sequence of entries. */
  ghost function EntryKeys(es: seq<RawEntry>): set<string> {
    set j | 0 <= j < |es| :: EntryKey(es[j])
  }

  /** An entry is kept only if no earlier entry had the same key; when no two
      keys of the entries collide under the hash, also conversely. */
  lemma FirstMeansNewKey(hash: Hash, es: seq<RawEntry>, i: int)
    requires 0 <= i < |es|
    ensures IsFirst(Normalise, ItemFingerprint(hash), es, i) ==>
      forall j :: 0 <= j < i ==> EntryKey(es[j]) != EntryKey(es[i])
    ensures InjectiveOn(hash, EntryKeys(es)) ==>
      (IsFirst(Normalise, ItemFingerprint(hash), es, i) <==>
        forall j :: 0 <= j < i ==> EntryKey(es[j]) != EntryKey(es[i]))
  {
  }

  // ---------------------------------------------------------------------
  // Concrete runs.

  /** There is no emptiness filter: an entry without title and link is kept,
      with empty strings; a later entry whose title and link strip to
      nothing, from another feed, has the same key `"-"` and is dropped. */
  lemma BlankEntriesKept(hash: Hash)
    ensures Run(hash, [[RawEntry(None, None, None, None, None)]]).items == [Item("", "", "", "")]
    ensures Run(hash, [[RawEntry(None, None, None, None, None)],
                       [RawEntry(Some(" "), Some("\t"), None, Some("d"), None)]]).items
            == [Item("", "", "", "")]
  {
  }

  /** The separator is not escaped: ("a-b", "c") and ("a", "b-c") have the
      same key, so the later of the two is dropped as a duplicate although
      it is a different article. */
  lemma SeparatorCollisionDropsLater(hash: Hash)
    ensures
      var e1 := RawEntry(Some("a-b"), Some("c"), None, None, None);
      var e2 := RawEntry(Some("a"), Some("b-c"), None, None, None);
      && Normalise(e1) != Normalise(e2)
      && Run(hash, [[e1], [e2]]).items == [Normalise(e1)]
  {
    var e1 := RawEntry(Some("a-b"), Some("c"), None, None, None);
    var e2 := RawEntry(Some("a"), Some("b-c"), None, None, None);
    StripFramed([], "a-b", []);
    StripFramed([], "c", []);
    StripFramed([], "a", []);
    StripFramed([], "b-c", []);
    assert [] + "a-b" + [] == "a-b" && [] + "c" + [] == "c";
    assert [] + "a" + [] == "a" && [] + "b-c" + [] == "b-c";
    SeparatorCollision();
    assert Flatten([[e1], [e2]]) == [e1, e2] by {
      assert [[e1], [e2]][..1] == [[e1]];
      assert Flatten([[e1]]) == [e1];
    }
    assert [e1, e2][..1] == [e1];
  }

  /** The same article listed by two feeds, with surrounding whitespace and
      different dates and summaries: the first copy is kept as it is, the
      second dropped. */
  lemma FirstCopyWins(hash: Hash)
    ensures
      var x := RawEntry(Some("X"), Some("http://a"), Some("Mon"), None, Some("one"));
      var y := RawEntry(Some(" X "), Some("http://a\n"), None, Some("Tue"), Some("two"));
      Run(hash, [[x], [y]]).items == [Item("X", "http://a", "Mon", "one")]
  {
    var x := RawEntry(Some("X"), Some("http://a"), Some("Mon"), None, Some("one"));
    var y := RawEntry(Some(" X "), Some("http://a\n"), None, Some("Tue"), Some("two"));
    StripFramed([], "X", []);
    StripFramed(" ", "X", " ");
    StripFramed([], "http://a", []);
    StripFramed([], "http://a", "\n");
    assert [] + "X" + [] == "X" && " " + "X" + " " == " X ";
    assert [] + "http://a" + [] == "http://a" && [] + "http://a" + "\n" == "http://a\n";
    assert Flatten([[x], [y]]) == [x, y] by {
      assert [[x], [y]][..1] == [[x]];
      assert Flatten([[x]]) == [x];
    }
    assert [x, y][..1] == [x];
  }
}
