/** The first-occurrence dedup fold at the heart of `fetch_and_parse`, stated
    for any normaliser `norm` (raw entry to kept item) and any fingerprint
    `fp` of a kept item. An entry whose fingerprint is already recorded is
    skipped; otherwise its fingerprint is recorded and its item appended. */
module Dedup {

  /** The run-wide accumulators: recorded fingerprints and kept items. */
  datatype State<I, D> = State(seen: set<D>, items: seq<I>)

  /** Both accumulators empty, as at the start of a run. */
  function Initial<I, D>(): State<I, D> {
    State({}, [])
  }

  /** The fingerprint of a raw entry: that of its normalised item. */
  function Uid<E, I, D>(norm: E -> I, fp: I -> D, e: E): D {
    fp(norm(e))
  }

  /** One iteration: process one entry. */
  function Step<E, I, D>(norm: E -> I, fp: I -> D, st: State<I, D>, e: E): (st': State<I, D>)
    ensures Uid(norm, fp, e) in st'.seen
    ensures st.seen <= st'.seen
  {
    var uid := Uid(norm, fp, e);
    if uid in st.seen then st
    else State(st.seen + {uid}, st.items + [norm(e)])
  }

  /** The loop over a sequence of entries, in order. */
  function Fold<E, I, D>(norm: E -> I, fp: I -> D, st: State<I, D>, es: seq<E>): State<I, D>
    decreases |es|
  {
    if es == [] then st
    else Step(norm, fp, Fold(norm, fp, st, es[..|es| - 1]), es[|es| - 1])
  }

  // ---------------------------------------------------------------------
  // A reference description of the result, with no accumulator.

  /** The images of the elements of `s` under `f`: the fingerprints of a
      sequence of entries or of items. */
  function Uids<T, D>(f: T -> D, s: seq<T>): set<D>
    decreases |s|
  {
    if s == [] then {}
    else Uids(f, s[..|s| - 1]) + {f(s[|s| - 1])}
  }

  /** `Uid` as a function value. */
  function UidOf<E, I, D>(norm: E -> I, fp: I -> D): E -> D {
    (e: E) => Uid(norm, fp, e)
  }

  /** The fingerprints of the entries in `es`. */
  function Seen<E, I, D>(norm: E -> I, fp: I -> D, es: seq<E>): set<D> {
    Uids(UidOf(norm, fp), es)
  }

  /** No entry before position `i` has the fingerprint of entry `i`. */
  predicate IsFirst<E, I, D(==)>(norm: E -> I, fp: I -> D, es: seq<E>, i: int)
    requires 0 <= i < |es|
  {
    forall j :: 0 <= j < i ==> Uid(norm, fp, es[j]) != Uid(norm, fp, es[i])
  }

  /** The items of the entries that are first with their fingerprint, in order. */
  function FirstOccurrences<E, I, D(==)>(norm: E -> I, fp: I -> D, es: seq<E>): seq<I>
    decreases |es|
  {
    if es == [] then []
    else
      var n := |es| - 1;
      FirstOccurrences(norm, fp, es[..n])
        + (if IsFirst(norm, fp, es, n) then [norm(es[n])] else [])
  }

  /** No two items share a fingerprint. */
  predicate DistinctUids<I, D(==)>(fp: I -> D, items: seq<I>) {
    forall i, j :: 0 <= i < j < |items| ==> fp(items[i]) != fp(items[j])
  }

  /** The loop invariant: the recorded fingerprints are exactly those of the
      kept items, and those are pairwise different. */
  predicate Consistent<I, D(==)>(fp: I -> D, st: State<I, D>) {
    st.seen == Uids(fp, st.items) && DistinctUids(fp, st.items)
  }

  // ---------------------------------------------------------------------
  // Membership in the fingerprint sets.

  lemma {:induction false} UidsMember<T, D>(f: T -> D, s: seq<T>, d: D)
    ensures d in Uids(f, s) <==> exists i :: 0 <= i < |s| && f(s[i]) == d
    decreases |s|
  {
    if s != [] {
      var n := |s| - 1;
      var p := s[..n];
      UidsMember(f, p, d);
      if d in Uids(f, p) {
        var i :| 0 <= i < n && f(p[i]) == d;
        assert p[i] == s[i];
      } else if d != f(s[n]) {
        forall i | 0 <= i < |s|
          ensures f(s[i]) != d
        {
          if i < n {
            assert p[i] == s[i];
          }
        }
      }
    }
  }

  lemma SeenMember<E, I, D>(norm: E -> I, fp: I -> D, es: seq<E>, d: D)
    ensures d in Seen(norm, fp, es) <==> exists i :: 0 <= i < |es| && Uid(norm, fp, es[i]) == d
  {
    UidsMember(UidOf(norm, fp), es, d);
  }

  // ---------------------------------------------------------------------
  // Properties of one step.

  /** An entry is kept exactly when its fingerprint is new; keeping it
      records its fingerprint and appends its item, and nothing else changes. */
  lemma StepEffect<E, I, D>(norm: E -> I, fp: I -> D, st: State<I, D>, e: E)
    ensures Uid(norm, fp, e) in st.seen ==> Step(norm, fp, st, e) == st
    ensures Uid(norm, fp, e) !in st.seen ==>
      && Step(norm, fp, st, e).seen == st.seen + {Uid(norm, fp, e)}
      && Step(norm, fp, st, e).items == st.items + [norm(e)]
  {
  }

  /** One step keeps the loop invariant and grows both accumulators together,
      by at most one. */
  lemma StepConsistent<E, I, D>(norm: E -> I, fp: I -> D, st: State<I, D>, e: E)
    requires Consistent(fp, st)
    ensures Consistent(fp, Step(norm, fp, st, e))
    ensures |Step(norm, fp, st, e).seen| - |st.seen| == |Step(norm, fp, st, e).items| - |st.items| <= 1
  {
    var uid := Uid(norm, fp, e);
    if uid !in st.seen {
      var items' := st.items + [norm(e)];
      assert items'[..|st.items|] == st.items;
      forall i, j | 0 <= i < j < |items'|
        ensures fp(items'[i]) != fp(items'[j])
      {
        assert items'[i] == st.items[i];
        if j < |st.items| {
          assert items'[j] == st.items[j];
        } else {
          UidsMember(fp, st.items, fp(st.items[i]));
        }
      }
    }
  }

  // ---------------------------------------------------------------------
  // Properties of the fold.

  /** The fold over `es + [e]` is one more step after the fold over `es`. */
  lemma FoldSnoc<E, I, D>(norm: E -> I, fp: I -> D, st: State<I, D>, es: seq<E>, e: E)
    ensures Fold(norm, fp, st, es + [e]) == Step(norm, fp, Fold(norm, fp, st, es), e)
  {
    assert (es + [e])[..|es|] == es;
  }

  /** Folding over a concatenation folds over the first part, then the second. */
  lemma {:induction false} FoldAppend<E, I, D>(norm: E -> I, fp: I -> D, st: State<I, D>, a: seq<E>, b: seq<E>)
    ensures Fold(norm, fp, st, a + b) == Fold(norm, fp, Fold(norm, fp, st, a), b)
    decreases |b|
  {
    if b == [] {
      assert a + b == a;
    } else {
      var n := |b| - 1;
      assert (a + b)[..|a + b| - 1] == a + b[..n];
      FoldAppend(norm, fp, st, a, b[..n]);
    }
  }

  /** The invariant holds after any number of entries; the recorded
      fingerprints grow exactly as the items do, at most one per entry. */
  lemma {:induction false} FoldConsistent<E, I, D>(norm: E -> I, fp: I -> D, st: State<I, D>, es: seq<E>)
    requires Consistent(fp, st)
    ensures Consistent(fp, Fold(norm, fp, st, es))
    ensures |Fold(norm, fp, st, es).seen| - |st.seen| == |Fold(norm, fp, st, es).items| - |st.items| <= |es|
    decreases |es|
  {
    if es != [] {
      var n := |es| - 1;
      FoldConsistent(norm, fp, st, es[..n]);
      StepConsistent(norm, fp, Fold(norm, fp, st, es[..n]), es[n]);
    }
  }

  /** The recorded fingerprints only grow, kept items are never removed or
      changed, and every processed entry's fingerprint ends up recorded. */
  lemma {:induction false} FoldGrows<E, I, D>(norm: E -> I, fp: I -> D, st: State<I, D>, es: seq<E>)
    ensures st.seen <= Fold(norm, fp, st, es).seen
    ensures Seen(norm, fp, es) <= Fold(norm, fp, st, es).seen
    ensures st.items <= Fold(norm, fp, st, es).items
    decreases |es|
  {
    if es != [] {
      FoldGrows(norm, fp, st, es[..|es| - 1]);
    }
  }

  /** Entries whose fingerprints are all recorded change nothing. */
  lemma {:induction false} FoldOverSeenIsIdentity<E, I, D>(norm: E -> I, fp: I -> D, st: State<I, D>, es: seq<E>)
    requires Seen(norm, fp, es) <= st.seen
    ensures Fold(norm, fp, st, es) == st
    decreases |es|
  {
    if es != [] {
      FoldOverSeenIsIdentity(norm, fp, st, es[..|es| - 1]);
    }
  }

  /** Running the loop again over entries already processed keeps nothing more. */
  lemma Refold<E, I, D>(norm: E -> I, fp: I -> D, st: State<I, D>, es: seq<E>)
    ensures Fold(norm, fp, Fold(norm, fp, st, es), es) == Fold(norm, fp, st, es)
  {
    FoldGrows(norm, fp, st, es);
    FoldOverSeenIsIdentity(norm, fp, Fold(norm, fp, st, es), es);
  }

  /** From empty accumulators, the fold computes the reference: the recorded
      fingerprints are those of all processed entries, and the items are
      those of the entries first with their fingerprint, in input order. */
  lemma {:induction false} FoldIsFirstOccurrences<E, I, D>(norm: E -> I, fp: I -> D, es: seq<E>)
    ensures Fold(norm, fp, Initial(), es) == State(Seen(norm, fp, es), FirstOccurrences(norm, fp, es))
    decreases |es|
  {
    if es != [] {
      var n := |es| - 1;
      var p := es[..n];
      FoldIsFirstOccurrences(norm, fp, p);
      var uid := Uid(norm, fp, es[n]);
      SeenMember(norm, fp, p, uid);
      if IsFirst(norm, fp, es, n) {
        forall j | 0 <= j < n
          ensures Uid(norm, fp, p[j]) != uid
        {
          assert p[j] == es[j];
        }
      } else {
        var j :| 0 <= j < n && Uid(norm, fp, es[j]) == uid;
        assert p[j] == es[j];
      }
    }
  }

  /** From empty accumulators, every processed entry is represented in the
      kept items by exactly one item: the one carrying its fingerprint. */
  lemma FoldRepresentsEveryEntry<E, I, D>(norm: E -> I, fp: I -> D, es: seq<E>)
    ensures forall i :: 0 <= i < |es| ==>
      exists j :: 0 <= j < |Fold(norm, fp, Initial(), es).items|
        && fp(Fold(norm, fp, Initial(), es).items[j]) == Uid(norm, fp, es[i])
    ensures DistinctUids(fp, Fold(norm, fp, Initial(), es).items)
  {
    var st := Fold(norm, fp, Initial(), es);
    FoldConsistent(norm, fp, Initial(), es);
    FoldGrows(norm, fp, Initial(), es);
    forall i | 0 <= i < |es|
      ensures exists j :: 0 <= j < |st.items| && fp(st.items[j]) == Uid(norm, fp, es[i])
    {
      SeenMember(norm, fp, es, Uid(norm, fp, es[i]));
      UidsMember(fp, st.items, Uid(norm, fp, es[i]));
    }
  }
}
