# hermes-relay ingestion and deduplication, in Dafny

hermes-relay is a daily cybersecurity-news digest. Its first script,
`hermes-relay.py`, reads a fixed list of RSS/Atom feeds. For every entry of
every feed, in order, it normalises the entry and computes a fingerprint
`hash_item(title, link)`, the SHA-256 hex digest of the key `title-link`. It
keeps the entry only when that fingerprint is not yet in the run-wide set
`seen_hashes`. The kept items accumulate in `all_items`, and the script then
writes them to a dated JSON file.

This project models that ingestion fold and proves its properties:

- `text.dfy`, module `Text`: Python's `str.strip()`, using the exact set of
  code points that `str.isspace()` accepts, with its characterisation and
  uniqueness.
- `fingerprint.dfy`, module `Fingerprint`: the key `title + "-" + link` and
  `hash_item`. The SHA-256 hex digest is a parameter `hash: string -> Digest`,
  where a `Digest` is 64 lower-case hex digits. Every property holds for any
  deterministic hash. The one converse that needs "different keys give
  different digests" takes `InjectiveOn(hash, keys)` as an explicit
  hypothesis: no collision among the finitely many keys of one run. No
  function from strings to digests is injective on all strings.
- `entry.dfy`, module `Entry`: the raw feed entry, with every field optional
  as in `dict.get`, the kept item, and the normalisation of lines 38-41.
- `dedup.dfy`, module `Dedup`: the first-occurrence fold, stated once for any
  normaliser and item fingerprint. It has a reference description with no
  accumulator (`Seen`, `IsFirst`, `FirstOccurrences`) and the invariants the
  fold keeps.
- `ingest.dfy`, module `Ingest`: the fold instantiated with `Normalise` and
  `hash_item` over the feeds taken one after the other, plus concrete runs.
- `relay.dfy`, module `Relay`: the `FEEDS` list and `fetch_and_parse` as the
  nested loop of the script. It is proved equal to the fold and, run on
  `FEEDS`, to the reference.

Beyond the fold, the script behaves as follows:

- No earlier output files are read, so there is no cross-run recall.
- No entry is dropped for an empty title or link.
- Nothing counts new or duplicate entries.
- A feed that feedparser cannot fetch or parse contributes the entries it returns, possibly none; the walk then moves on to the next feed.
- The output file is written even when no item was kept.

## Model

| member | source | states |
|---|---|---|
| `Text.StripSpec` | hermes-relay.py:38-39 | `strip()` returns the part of the string that has only whitespace (in the sense of `str.isspace`) before and after it, and that does not itself start or end with whitespace |
| `Text.StripFramed` | hermes-relay.py:38-39 | conversely, a string that has no whitespace at either end and is surrounded only by whitespace is exactly what `strip()` returns, so `StripSpec` determines `strip()` completely |
| `Text.StripIdempotent` | hermes-relay.py:38-39 | stripping an already stripped title or link changes nothing |
| `Text.TrimStartSpec` | hermes-relay.py:38-39 | the leading half of `strip()` removes a whitespace prefix and leaves a string that does not start with whitespace |
| `Text.TrimEndSpec` | hermes-relay.py:38-39 | the trailing half of `strip()` removes a whitespace suffix and leaves a string that does not end with whitespace |
| `Fingerprint.KeyLayout` | hermes-relay.py:29 | the dedup key is the title, then the separator `-`, then the link, with nothing else: its length is the sum plus one |
| `Fingerprint.KeyDeterminesSeparatorFreePair` | hermes-relay.py:27-30 | when neither title contains `-`, equal keys mean equal (title, link) pairs |
| `Fingerprint.SeparatorCollision` | hermes-relay.py:29-30 | the separator is not escaped: ("a-b", "c") and ("a", "b-c") are different pairs with the same key `a-b-c`, so they get the same fingerprint under every hash |
| `Entry.NormaliseFields` | hermes-relay.py:38-41 | a kept item holds the stripped title and link (`""` when absent); the date is `published` if present, else `updated`, else `""`; the summary is `summary` or `""`; date and summary are not stripped |
| `Dedup.StepEffect` | hermes-relay.py:43-54 | an entry whose fingerprint is recorded leaves both accumulators unchanged; otherwise exactly its fingerprint is added and exactly its item is appended |
| `Dedup.StepConsistent` | hermes-relay.py:43-54 | one entry keeps the invariant "`seen_hashes` is the fingerprints of `all_items`, pairwise different", and grows both by the same amount, at most one |
| `Dedup.FoldAppend` | hermes-relay.py:34-37 | walking two sequences of entries one after the other is walking their concatenation with one set of accumulators, which is why the set spans all feeds |
| `Dedup.FoldConsistent` | hermes-relay.py:24-25 | the invariant holds after any number of entries, and the sizes of `seen_hashes` and `all_items` grow equally, by at most the number of entries |
| `Dedup.FoldGrows` | hermes-relay.py:44-47 | `seen_hashes` only grows, kept items stay as a prefix, and the fingerprint of every processed entry is recorded afterwards |
| `Dedup.FoldOverSeenIsIdentity` | hermes-relay.py:44-45 | entries whose fingerprints are all recorded change neither accumulator |
| `Dedup.Refold` | hermes-relay.py:44-47 | walking the same entries again after a walk keeps nothing more |
| `Dedup.FoldIsFirstOccurrences` | hermes-relay.py:34-54 | from empty accumulators, the kept items are the items of exactly the entries whose fingerprint no earlier entry had, in input order, and `seen_hashes` is the set of fingerprints of all entries |
| `Dedup.FoldRepresentsEveryEntry` | hermes-relay.py:43-54 | every processed entry has exactly one kept item with its fingerprint |
| `Ingest.UidIsHashOfKey` | hermes-relay.py:43 | the fingerprint used for an entry is the hash of the key of its stripped title and stripped link, and of nothing else |
| `Ingest.RunInvariants` | hermes-relay.py:24-25 | at the end, `seen_hashes` is the set of fingerprints of `all_items`; no two items share a fingerprint nor a (title, link) pair, even across feeds; both have the same size, at most the number of entries |
| `Ingest.RunIsFirstOccurrences` | hermes-relay.py:34-54 | over all feeds in feed-then-entry order, the kept items are exactly those of the entries whose `hash_item(title, link)` no earlier entry had, in order, and `seen_hashes` is the set of fingerprints of all entries walked |
| `Ingest.RunKeepsEachFingerprintOnce` | hermes-relay.py:34-54 | an article listed by several feeds is kept once: each entry's fingerprint is carried by exactly one kept item |
| `Ingest.FirstMeansNewKey` | hermes-relay.py:43-45 | a kept entry has a key no earlier entry had, under every hash; if no two keys of the run collide under the hash, an entry is kept exactly when no earlier entry had its key |
| `Ingest.BlankEntriesKept` | hermes-relay.py:38-54 | nothing filters empty fields: an entry with no title and no link is kept as an item of empty strings, and a later whitespace-only one, from another feed, is dropped as a duplicate of key `-` |
| `Ingest.SeparatorCollisionDropsLater` | hermes-relay.py:43-45 | with entries ("a-b", "c") and then ("a", "b-c"), the second is dropped although it is a different article |
| `Ingest.FirstCopyWins` | hermes-relay.py:34-54 | when the same article is listed by two feeds, with different whitespace, dates and summaries, the first copy is kept unchanged and the second dropped |
| `Relay.FetchAndParse` | hermes-relay.py:32-54 | the nested loop over the feeds and then their entries ends in exactly the state of the fold over all entries in that order (hence, by `Dedup.FoldIsFirstOccurrences`, the first-occurrence items); `seen_hashes` is exactly the set of fingerprints of `all_items`, and those are pairwise different |
| `Relay.RunScript` | hermes-relay.py:62-63 | one `fetch_and_parse()` over the nine `FEEDS` (lines 7-17), as the entry point runs it, leaves in `all_items` the first occurrence of each fingerprint over those feeds in order, and in `seen_hashes` the fingerprints of all their entries, which are those of `all_items` |

## Left out

- `feedparser.parse`, the network fetch and RSS/Atom parsing: replaced by a parameter `parse` from URL to parsed entries. A feed that feedparser cannot fetch or parse (its `bozo` case) contributes the entries it returns, possibly none, which `parse` may yield. An exception raised by `feedparser.parse` is not caught and aborts the script, which the model does not represent.
- SHA-256 and the UTF-8 encoding of the key: replaced by the parameter `hash`. Collision resistance is not modelled; where a property needs it, it takes `InjectiveOn(hash, keys)`, the absence of a collision among the keys of that run, as a hypothesis.
- The `print` of each URL, the date-stamped output name from `datetime.utcnow()`, and `save_output`, which writes `all_items` as JSON even when it is empty: console output, the clock and file I/O.
- The module-level globals are modelled as a state value that starts empty, since the script calls `fetch_and_parse` once per process.
- `llm_score_and_summarize.py` is not part of this model. It does environment checks, picks the latest output file, builds a prompt, calls a language-model service over HTTP and writes a file: all I/O and templating.
- `orchestrator.py` is not part of this model. It checks environment variables and runs the two scripts as subprocesses: process plumbing.
