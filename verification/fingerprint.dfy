/** `hash_item`: the dedup fingerprint of an entry's (title, link) pair. */
module Fingerprint {

  const HexDigits: string := "0123456789abcdef"

  /** What `hexdigest()` of a SHA-256 hash looks like: 64 lower-case hex digits. */
  predicate IsHexDigest(s: string) {
    |s| == 64 && forall i :: 0 <= i < |s| ==> s[i] in HexDigits
  }

  type Digest = s: string | IsHexDigest(s) witness ZeroDigest()

  /** The all-zero digest. */
  function ZeroDigest(): (d: string)
    ensures IsHexDigest(d)
  {
    seq(64, _ => '0')
  }

  /** The hash applied to a key: `sha256(key.encode("utf-8")).hexdigest()`.
      Its internals are not modelled; every operation takes it as a parameter,
      so every property proved holds for any deterministic hash. */
  type Hash = string -> Digest

  /** The hash maps different keys of `keys` to different digests: the
      absence of a collision among the keys of one run. No hash is injective
      on all strings, as there are only finitely many digests, but on a
      finite set of keys this can hold. */
  ghost predicate InjectiveOn(hash: Hash, keys: set<string>) {
    forall k1, k2 :: k1 in keys && k2 in keys && hash(k1) == hash(k2) ==> k1 == k2
  }

  const Separator: char := '-'

  /** The key `f"{title}-{link}"`. */
  function Key(title: string, link: string): string {
    title + [Separator] + link
  }

  /** The key is the title, then the separator, then the link, and nothing else. */
  lemma KeyLayout(title: string, link: string)
    ensures |Key(title, link)| == |title| + 1 + |link|
    ensures Key(title, link)[..|title|] == title
    ensures Key(title, link)[|title|] == Separator
    ensures Key(title, link)[|title| + 1..] == link
  {
  }

  /** `hash_item(title, link)` */
  function HashItem(hash: Hash, title: string, link: string): Digest {
    hash(Key(title, link))
  }

  /** When neither title contains the separator, the key determines the pair. */
  lemma KeyDeterminesSeparatorFreePair(t1: string, l1: string, t2: string, l2: string)
    requires Separator !in t1 && Separator !in t2
    requires Key(t1, l1) == Key(t2, l2)
    ensures t1 == t2 && l1 == l2
  {
    var k := Key(t1, l1);
    KeyLayout(t1, l1);
    KeyLayout(t2, l2);
    if |t1| != |t2| {
      assert false;
    }
    assert t1 == k[..|t1|] == t2;
  }

  /** The separator is not escaped: two different pairs can share a key,
      and then share a fingerprint under every hash. */
  lemma SeparatorCollision()
    ensures ("a-b", "c") != ("a", "b-c")
    ensures Key("a-b", "c") == Key("a", "b-c") == "a-b-c"
    ensures forall hash: Hash :: HashItem(hash, "a-b", "c") == HashItem(hash, "a", "b-c")
  {
  }
}
