/**
 * Counting occurrences of keys, as `collections.Counter`, `Series.value_counts`
 * and `DataFrame.groupby(...).count()` do it. A table is a sequence of
 * (key, count) entries.
 *
 * `Tally` adds the keys one at a time. A key already in the table has its count
 * raised in place. A new key goes in front of the first entry it precedes under
 * `before`, or at the end when it precedes none. With `Never`, which precedes
 * nothing, the table lists keys in order of first occurrence (a `Counter`). With
 * a total order, it lists them in that order (a sorted `groupby`).
 */
module Counting {

  /** The keys of a table, in order. */
  function Keys<K>(t: seq<(K, nat)>): (ks: seq<K>)
    ensures |ks| == |t|
    ensures forall i :: 0 <= i < |t| ==> ks[i] == t[i].0
  {
    seq(|t|, i requires 0 <= i < |t| => t[i].0)
  }

  lemma KeysConcat<K>(a: seq<(K, nat)>, b: seq<(K, nat)>)
    ensures Keys(a + b) == Keys(a) + Keys(b)
  {
  }

  /** No key is listed twice. */
  ghost predicate UniqueKeys<K(!new)>(t: seq<(K, nat)>) {
    forall k :: multiset(Keys(t))[k] <= 1
  }

  /** The count of the first entry for `k`, or 0 when `k` is not listed. */
  function CountOf<K(==)>(t: seq<(K, nat)>, k: K): nat {
    if t == [] then 0 else if t[0].0 == k then t[0].1 else CountOf(t[1..], k)
  }

  /** The sum of all counts. */
  function Total<K>(t: seq<(K, nat)>): nat {
    if t == [] then 0 else t[0].1 + Total(t[1..])
  }

  /** The placement rule of `Counter`: a new key never goes in front of another. */
  function Never<K>(a: K, b: K): bool {
    false
  }

  /** `before` is transitive and relates any two different keys one way or the other. */
  ghost predicate TotalOrder<K(!new)>(before: (K, K) -> bool) {
    && (forall a, b, c :: before(a, b) && before(b, c) ==> before(a, c))
    && (forall a, b :: a != b ==> before(a, b) || before(b, a))
  }

  ghost predicate Increasing<K>(ks: seq<K>, before: (K, K) -> bool) {
    forall i, j :: 0 <= i < j < |ks| ==> before(ks[i], ks[j])
  }

  /** One more occurrence of `k`. */
  function Add<K(==)>(t: seq<(K, nat)>, k: K, before: (K, K) -> bool): seq<(K, nat)> {
    if t == [] then [(k, 1)]
    else if t[0].0 == k then [(k, t[0].1 + 1)] + t[1..]
    else if before(k, t[0].0) && k !in Keys(t) then [(k, 1)] + t
    else [t[0]] + Add(t[1..], k, before)
  }

  /** The table of `xs`, read from left to right. */
  function Tally<K(==)>(xs: seq<K>, before: (K, K) -> bool): seq<(K, nat)> {
    if xs == [] then [] else Add(Tally(xs[..|xs| - 1], before), xs[|xs| - 1], before)
  }

  /** Adding a listed key leaves the keys as they are. */
  lemma {:induction false} AddListed<K>(t: seq<(K, nat)>, k: K, before: (K, K) -> bool)
    requires k in Keys(t)
    ensures Keys(Add(t, k, before)) == Keys(t)
  {
    AddListedInPlace(t, k, before);
  }

  lemma {:induction false} AddListedInPlace<K>(t: seq<(K, nat)>, k: K, before: (K, K) -> bool)
    requires k in Keys(t)
    ensures |Add(t, k, before)| == |t|
    ensures forall i | 0 <= i < |t| :: Add(t, k, before)[i].0 == t[i].0
  {
    if t[0].0 != k {
      var i :| 0 <= i < |t| && Keys(t)[i] == k;
      assert Keys(t[1..])[i - 1] == k;
      AddListedInPlace(t[1..], k, before);
    }
  }

  /** Adding a key that is not listed lists it once. */
  lemma {:induction false} AddUnlisted<K>(t: seq<(K, nat)>, k: K, before: (K, K) -> bool)
    requires k !in Keys(t)
    ensures multiset(Keys(Add(t, k, before))) == multiset(Keys(t)) + multiset{k}
  {
    var r := Add(t, k, before);
    if t == [] {
      assert Keys(r) == [k];
    } else if before(k, t[0].0) {
      KeysConcat([(k, 1)], t);
      assert r == [(k, 1)] + t;
    } else {
      var u := Add(t[1..], k, before);
      KeysConcat([t[0]], t[1..]);
      assert t == [t[0]] + t[1..];
      assert k !in Keys(t[1..]);
      AddUnlisted(t[1..], k, before);
      KeysConcat([t[0]], u);
      assert r == [t[0]] + u;
    }
  }

  lemma AddKeys<K>(t: seq<(K, nat)>, k: K, before: (K, K) -> bool)
    ensures k in Keys(t) ==> Keys(Add(t, k, before)) == Keys(t)
    ensures multiset(Keys(Add(t, k, before)))
         == multiset(Keys(t)) + (if k in Keys(t) then multiset{} else multiset{k})
  {
    if k in Keys(t) {
      AddListed(t, k, before);
    } else {
      AddUnlisted(t, k, before);
    }
  }

  /** Adding `k` raises the count of `k` by one and no other count. */
  lemma {:induction false} AddCounts<K>(t: seq<(K, nat)>, k: K, before: (K, K) -> bool, j: K)
    ensures CountOf(Add(t, k, before), j) == CountOf(t, j) + (if j == k then 1 else 0)
  {
    var r := Add(t, k, before);
    if t == [] {
    } else if t[0].0 == k {
      assert r[1..] == t[1..];
    } else if before(k, t[0].0) && k !in Keys(t) {
      assert r[1..] == t;
      if j == k {
        NotListedCountsZero(t, k);
      }
    } else {
      AddCounts(t[1..], k, before, j);
      assert r[1..] == Add(t[1..], k, before);
    }
  }

  lemma {:induction false} NotListedCountsZero<K>(t: seq<(K, nat)>, k: K)
    requires k !in Keys(t)
    ensures CountOf(t, k) == 0
  {
    if t != [] {
      assert Keys(t)[0] == t[0].0;
      assert Keys(t[1..]) == Keys(t)[1..];
      NotListedCountsZero(t[1..], k);
    }
  }

  lemma {:induction false} AddTotal<K>(t: seq<(K, nat)>, k: K, before: (K, K) -> bool)
    ensures Total(Add(t, k, before)) == Total(t) + 1
  {
    var r := Add(t, k, before);
    if t == [] {
    } else if t[0].0 == k {
      assert r[1..] == t[1..];
    } else if before(k, t[0].0) && k !in Keys(t) {
      assert r[1..] == t;
    } else {
      AddTotal(t[1..], k, before);
      assert r[1..] == Add(t[1..], k, before);
    }
  }

  /** Counts and keys of a table: each key of `xs` listed once, with its number of occurrences. */
  lemma {:induction false} TallySpec<K>(xs: seq<K>, before: (K, K) -> bool)
    ensures forall k :: multiset(Keys(Tally(xs, before)))[k] == (if k in xs then 1 else 0)
    ensures forall k :: CountOf(Tally(xs, before), k) == multiset(xs)[k]
    ensures Total(Tally(xs, before)) == |xs|
  {
    if xs != [] {
      var ys, k := xs[..|xs| - 1], xs[|xs| - 1];
      assert xs == ys + [k];
      var t := Tally(ys, before);
      TallySpec(ys, before);
      AddKeys(t, k, before);
      AddTotal(t, k, before);
      forall j ensures CountOf(Tally(xs, before), j) == multiset(xs)[j] {
        AddCounts(t, k, before, j);
      }
      assert k in Keys(t) <==> k in ys by {
        assert k in Keys(t) <==> multiset(Keys(t))[k] > 0;
      }
      forall j
        ensures multiset(Keys(Tally(xs, before)))[j] == (if j in xs then 1 else 0)
      {
        assert j in xs <==> j in ys || j == k;
      }
    }
  }

  /** In a table without repeated keys, an entry's count is the count of its key. */
  lemma {:induction false} EntryCount<K(!new)>(t: seq<(K, nat)>, i: nat)
    requires UniqueKeys(t)
    requires i < |t|
    ensures CountOf(t, t[i].0) == t[i].1
  {
    if i > 0 {
      KeysConcat([t[0]], t[1..]);
      assert t == [t[0]] + t[1..];
      var k := t[i].0;
      assert Keys(t[1..])[i - 1] == k;
      assert t[0].0 != k by {
        assert multiset(Keys(t))[k] == multiset([t[0].0])[k] + multiset(Keys(t[1..]))[k];
      }
      forall j ensures multiset(Keys(t[1..]))[j] <= 1 {
        assert multiset(Keys(t))[j] == multiset([t[0].0])[j] + multiset(Keys(t[1..]))[j];
      }
      EntryCount(t[1..], i - 1);
    }
  }

  /** Every entry of a tally counts an element of the input, with its exact multiplicity. */
  lemma TallyEntries<K(!new)>(xs: seq<K>, before: (K, K) -> bool)
    ensures UniqueKeys(Tally(xs, before))
    ensures forall i :: 0 <= i < |Tally(xs, before)| ==>
      var e := Tally(xs, before)[i]; e.0 in xs && e.1 == multiset(xs)[e.0] && e.1 >= 1
    ensures forall k :: k in xs ==> k in Keys(Tally(xs, before))
  {
    var t := Tally(xs, before);
    TallySpec(xs, before);
    forall i | 0 <= i < |t|
      ensures t[i].0 in xs && t[i].1 == multiset(xs)[t[i].0]
    {
      assert Keys(t)[i] == t[i].0;
      EntryCount(t, i);
    }
    forall k | k in xs ensures k in Keys(t) {
      assert multiset(Keys(t))[k] == 1;
    }
  }

  lemma ConsIncreasing<K>(a: K, ks: seq<K>, before: (K, K) -> bool)
    requires Increasing(ks, before)
    requires forall j :: 0 <= j < |ks| ==> before(a, ks[j])
    ensures Increasing([a] + ks, before)
  {
  }

  /** Adding a key that is not listed keeps the keys of a table in increasing order. */
  lemma {:induction false} AddUnlistedIncreasing<K(!new)>(t: seq<(K, nat)>, k: K, before: (K, K) -> bool)
    requires TotalOrder(before)
    requires k !in Keys(t)
    requires Increasing(Keys(t), before)
    ensures Increasing(Keys(Add(t, k, before)), before)
  {
    if t == [] {
      assert Keys(Add(t, k, before)) == [k];
    } else if before(k, t[0].0) {
      InsertFrontIncreasing(t, k, before);
    } else {
      TailIncreasing(t, before);
      assert Keys(t)[1..] == Keys(t[1..]);
      AddUnlistedIncreasing(t[1..], k, before);
      InsertLaterIncreasing(t, k, before);
    }
  }

  lemma TailIncreasing<K>(t: seq<(K, nat)>, before: (K, K) -> bool)
    requires t != [] && Increasing(Keys(t), before)
    ensures Increasing(Keys(t[1..]), before)
    ensures forall j | 1 <= j < |t| :: before(t[0].0, t[j].0)
  {
    forall j | 1 <= j < |t| ensures before(t[0].0, t[j].0) {
      assert before(Keys(t)[0], Keys(t)[j]);
    }
    forall i, j | 0 <= i < j < |t| - 1 ensures before(Keys(t[1..])[i], Keys(t[1..])[j]) {
      assert before(Keys(t)[i + 1], Keys(t)[j + 1]);
    }
  }

  /** A new key that precedes the first entry goes in front, and the keys stay increasing. */
  lemma InsertFrontIncreasing<K(!new)>(t: seq<(K, nat)>, k: K, before: (K, K) -> bool)
    requires TotalOrder(before)
    requires t != [] && k !in Keys(t) && before(k, t[0].0)
    requires Increasing(Keys(t), before)
    ensures Increasing(Keys(Add(t, k, before)), before)
  {
    TailIncreasing(t, before);
    assert Add(t, k, before) == [(k, 1)] + t;
    KeysConcat([(k, 1)], t);
    ConsIncreasing(k, Keys(t), before);
  }

  /** A new key that does not precede the first entry goes after it, and the keys stay increasing. */
  lemma InsertLaterIncreasing<K(!new)>(t: seq<(K, nat)>, k: K, before: (K, K) -> bool)
    requires TotalOrder(before)
    requires t != [] && k !in Keys(t) && !before(k, t[0].0)
    requires Increasing(Keys(t), before)
    requires Increasing(Keys(Add(t[1..], k, before)), before)
    ensures Increasing(Keys(Add(t, k, before)), before)
  {
    var u := Add(t[1..], k, before);
    TailIncreasing(t, before);
    assert t[0].0 == Keys(t)[0];
    assert before(t[0].0, k);
    AddKeysFrom(t[1..], k, before);
    forall j | 0 <= j < |u| ensures before(t[0].0, Keys(u)[j]) {
      if u[j].0 != k {
        var i :| 0 <= i < |t[1..]| && Keys(t[1..])[i] == u[j].0;
        assert t[i + 1].0 == u[j].0;
      }
    }
    assert Add(t, k, before) == [t[0]] + u;
    KeysConcat([t[0]], u);
    ConsIncreasing(t[0].0, Keys(u), before);
  }

  /** Every key after adding `k` is `k` or was already listed. */
  lemma {:induction false} AddKeysFrom<K>(t: seq<(K, nat)>, k: K, before: (K, K) -> bool)
    ensures forall j | 0 <= j < |Add(t, k, before)| :: Add(t, k, before)[j].0 == k || Add(t, k, before)[j].0 in Keys(t)
  {
    var r := Add(t, k, before);
    if t != [] && t[0].0 != k && !(before(k, t[0].0) && k !in Keys(t)) {
      AddKeysFrom(t[1..], k, before);
      forall j | 0 <= j < |r| ensures r[j].0 == k || r[j].0 in Keys(t) {
        if j > 0 && r[j].0 != k {
          var i :| 0 <= i < |t[1..]| && Keys(t[1..])[i] == r[j].0;
          assert Keys(t)[i + 1] == r[j].0;
        }
      }
    } else if t != [] && t[0].0 == k {
      forall j | 0 <= j < |r| ensures r[j].0 == k || r[j].0 in Keys(t) {
        if j > 0 {
          assert Keys(t)[j] == r[j].0;
        }
      }
    } else if t != [] {
      forall j | 0 <= j < |r| ensures r[j].0 == k || r[j].0 in Keys(t) {
        if j > 0 {
          assert Keys(t)[j - 1] == r[j].0;
        }
      }
    }
  }

  /** Adding a key keeps the keys of a table in increasing order. */
  lemma AddIncreasing<K(!new)>(t: seq<(K, nat)>, k: K, before: (K, K) -> bool)
    requires TotalOrder(before)
    requires Increasing(Keys(t), before)
    ensures Increasing(Keys(Add(t, k, before)), before)
  {
    if k in Keys(t) {
      AddListed(t, k, before);
    } else {
      AddUnlistedIncreasing(t, k, before);
    }
  }

  /** Under a total order the tally lists its keys in increasing order. */
  lemma {:induction false} TallyIncreasing<K(!new)>(xs: seq<K>, before: (K, K) -> bool)
    requires TotalOrder(before)
    ensures Increasing(Keys(Tally(xs, before)), before)
  {
    if xs != [] {
      TallyIncreasing(xs[..|xs| - 1], before);
      AddIncreasing(Tally(xs[..|xs| - 1], before), xs[|xs| - 1], before);
    }
  }

  /** Counts never go up from one entry to a later one. */
  ghost predicate NonIncreasing<K>(t: seq<(K, nat)>) {
    forall i, j :: 0 <= i < j < |t| ==> t[i].1 >= t[j].1
  }

  /** Puts `e` after every entry whose count is at least its own. */
  function Place<K>(e: (K, nat), s: seq<(K, nat)>): seq<(K, nat)> {
    if s == [] || s[0].1 < e.1 then [e] + s else [s[0]] + Place(e, s[1..])
  }

  /** A stable sort by descending count: entries with equal counts keep their order. */
  function ByCount<K>(t: seq<(K, nat)>): seq<(K, nat)> {
    if t == [] then [] else Place(t[|t| - 1], ByCount(t[..|t| - 1]))
  }

  /** `Place` adds `e` to the entries. */
  lemma {:induction false} PlaceEntries<K>(e: (K, nat), s: seq<(K, nat)>)
    ensures multiset(Place(e, s)) == multiset(s) + multiset{e}
  {
    if !(s == [] || s[0].1 < e.1) {
      PlaceEntries(e, s[1..]);
      assert s == [s[0]] + s[1..];
    }
  }

  lemma {:induction false} PlaceKeys<K>(e: (K, nat), s: seq<(K, nat)>)
    ensures multiset(Keys(Place(e, s))) == multiset(Keys(s)) + multiset{e.0}
  {
    var r := Place(e, s);
    if s == [] || s[0].1 < e.1 {
      KeysConcat([e], s);
      assert r[1..] == s;
    } else {
      var u := Place(e, s[1..]);
      PlaceKeys(e, s[1..]);
      KeysConcat([s[0]], u);
      KeysConcat([s[0]], s[1..]);
      assert s == [s[0]] + s[1..];
      assert r[1..] == u;
    }
  }

  lemma {:induction false} PlaceTotal<K>(e: (K, nat), s: seq<(K, nat)>)
    ensures Total(Place(e, s)) == Total(s) + e.1
  {
    if !(s == [] || s[0].1 < e.1) {
      PlaceTotal(e, s[1..]);
      assert Place(e, s)[1..] == Place(e, s[1..]);
    }
  }

  /** `Place` keeps counts non-increasing. */
  lemma {:induction false} PlaceSorted<K>(e: (K, nat), s: seq<(K, nat)>)
    requires NonIncreasing(s)
    ensures NonIncreasing(Place(e, s))
  {
    var r := Place(e, s);
    if !(s == [] || s[0].1 < e.1) {
      var u := Place(e, s[1..]);
      PlaceSorted(e, s[1..]);
      PlaceEntries(e, s[1..]);
      assert r == [s[0]] + u;
      forall j | 0 <= j < |u| ensures s[0].1 >= u[j].1 {
        assert u[j] in multiset(u);
        if u[j] != e {
          var i :| 0 <= i < |s[1..]| && s[1..][i] == u[j];
          assert s[0].1 >= s[i + 1].1;
        }
      }
    }
  }

  lemma PlaceSpec<K>(e: (K, nat), s: seq<(K, nat)>)
    requires NonIncreasing(s)
    ensures NonIncreasing(Place(e, s))
    ensures multiset(Place(e, s)) == multiset(s) + multiset{e}
    ensures multiset(Keys(Place(e, s))) == multiset(Keys(s)) + multiset{e.0}
    ensures Total(Place(e, s)) == Total(s) + e.1
  {
    PlaceSorted(e, s);
    PlaceEntries(e, s);
    PlaceKeys(e, s);
    PlaceTotal(e, s);
  }

  /** `ByCount` sorts: counts are non-increasing, and the entries are those of `t`. */
  lemma ByCountSpec<K>(t: seq<(K, nat)>)
    ensures NonIncreasing(ByCount(t))
    ensures multiset(ByCount(t)) == multiset(t)
    ensures multiset(Keys(ByCount(t))) == multiset(Keys(t))
    ensures Total(ByCount(t)) == Total(t)
  {
    ByCountSorted(t);
    ByCountEntries(t);
    ByCountKeys(t);
    ByCountTotal(t);
  }

  lemma {:induction false} ByCountSorted<K>(t: seq<(K, nat)>)
    ensures NonIncreasing(ByCount(t))
  {
    if t != [] {
      ByCountSorted(t[..|t| - 1]);
      PlaceSorted(t[|t| - 1], ByCount(t[..|t| - 1]));
    }
  }

  lemma {:induction false} ByCountEntries<K>(t: seq<(K, nat)>)
    ensures multiset(ByCount(t)) == multiset(t)
  {
    if t != [] {
      var front, e := t[..|t| - 1], t[|t| - 1];
      assert t == front + [e];
      ByCountEntries(front);
      PlaceEntries(e, ByCount(front));
    }
  }

  lemma {:induction false} ByCountKeys<K>(t: seq<(K, nat)>)
    ensures multiset(Keys(ByCount(t))) == multiset(Keys(t))
  {
    if t != [] {
      var front, e := t[..|t| - 1], t[|t| - 1];
      assert t == front + [e];
      ByCountKeys(front);
      PlaceKeys(e, ByCount(front));
      KeysConcat(front, [e]);
    }
  }

  lemma {:induction false} ByCountTotal<K>(t: seq<(K, nat)>)
    ensures Total(ByCount(t)) == Total(t)
  {
    if t != [] {
      var front, e := t[..|t| - 1], t[|t| - 1];
      assert t == front + [e];
      ByCountTotal(front);
      PlaceTotal(e, ByCount(front));
      TotalSnoc(front, e);
    }
  }

  lemma {:induction false} TotalSnoc<K>(t: seq<(K, nat)>, e: (K, nat))
    ensures Total(t + [e]) == Total(t) + e.1
  {
    if t != [] {
      assert (t + [e])[1..] == t[1..] + [e];
      TotalSnoc(t[1..], e);
    }
  }

  /** `Series.value_counts()`: one entry per distinct key, most frequent first. */
  function ValueCounts<K(==)>(xs: seq<K>): seq<(K, nat)> {
    ByCount(Tally(xs, Never))
  }

  /** At most `n` leading entries: `head(n)` of a series, or `most_common(n)` of a `Counter`. */
  function Head<K>(t: seq<(K, nat)>, n: nat): (r: seq<(K, nat)>)
    ensures |r| == if |t| <= n then |t| else n
  {
    if |t| <= n then t else t[..n]
  }

  function MostCommon<K(==)>(xs: seq<K>, n: nat): seq<(K, nat)> {
    Head(ValueCounts(xs), n)
  }

  /**
   * `value_counts` lists every distinct key exactly once, with its number of
   * occurrences, most frequent first; the counts add up to the input's length.
   */
  lemma ValueCountsSpec<K(!new)>(xs: seq<K>)
    ensures NonIncreasing(ValueCounts(xs))
    ensures UniqueKeys(ValueCounts(xs))
    ensures forall i :: 0 <= i < |ValueCounts(xs)| ==>
      var e := ValueCounts(xs)[i]; e.0 in xs && e.1 == multiset(xs)[e.0] && e.1 >= 1
    ensures forall k :: k in xs ==> k in Keys(ValueCounts(xs))
    ensures Total(ValueCounts(xs)) == |xs|
  {
    var t := Tally(xs, Never);
    var s := ByCount(t);
    TallySpec(xs, Never);
    TallyEntries(xs, Never);
    ByCountSpec(t);
    forall i | 0 <= i < |s|
      ensures s[i].0 in xs && s[i].1 == multiset(xs)[s[i].0] && s[i].1 >= 1
    {
      assert s[i] in multiset(t);
      var j :| 0 <= j < |t| && t[j] == s[i];
    }
    forall k | k in xs ensures k in Keys(s) {
      assert k in Keys(t);
      assert multiset(Keys(s))[k] > 0;
    }
  }

  lemma HeadUnique<K(!new)>(t: seq<(K, nat)>, n: nat)
    requires UniqueKeys(t)
    ensures UniqueKeys(Head(t, n))
  {
    if |t| > n {
      var r := Head(t, n);
      assert t == r + t[n..];
      KeysConcat(r, t[n..]);
      forall k ensures multiset(Keys(r))[k] <= 1 {
        assert multiset(Keys(t))[k] == multiset(Keys(r))[k] + multiset(Keys(t[n..]))[k];
      }
    }
  }

  /** An entry that `Head` drops lies at or after position `n`. */
  lemma HeadDrops<K>(t: seq<(K, nat)>, n: nat, j: nat)
    requires j < |t|
    requires t[j].0 !in Keys(Head(t, n))
    ensures |Head(t, n)| == n <= j
  {
    assert Keys(Head(t, n)) == Keys(t)[..|Head(t, n)|];
  }

  /** A key left out of `most_common(n)` occurs no more often than the last one listed. */
  lemma MostCommonLeavesOut<K(!new)>(xs: seq<K>, n: nat, k: K)
    requires k in xs && k !in Keys(MostCommon(xs, n))
    ensures |MostCommon(xs, n)| == n
    ensures n == 0 || multiset(xs)[k] <= MostCommon(xs, n)[n - 1].1
  {
    var s := ValueCounts(xs);
    ValueCountsSpec(xs);
    var j :| 0 <= j < |s| && Keys(s)[j] == k;
    HeadDrops(s, n, j);
    if n > 0 {
      assert MostCommon(xs, n)[n - 1] == s[n - 1];
    }
  }

  /**
   * `most_common(n)` and `value_counts().head(n)`: at most `n` distinct keys of
   * the input with their exact counts, most frequent first, and no key left out
   * occurs more often than the last one listed.
   */
  lemma MostCommonSpec<K(!new)>(xs: seq<K>, n: nat)
    ensures |MostCommon(xs, n)| <= n
    ensures NonIncreasing(MostCommon(xs, n))
    ensures UniqueKeys(MostCommon(xs, n))
    ensures forall i :: 0 <= i < |MostCommon(xs, n)| ==>
      var e := MostCommon(xs, n)[i]; e.0 in xs && e.1 == multiset(xs)[e.0] && e.1 >= 1
    ensures forall k :: k in xs && k !in Keys(MostCommon(xs, n)) ==>
      |MostCommon(xs, n)| == n && (n == 0 || multiset(xs)[k] <= MostCommon(xs, n)[n - 1].1)
  {
    MostCommonSorted(xs, n);
    MostCommonEntries(xs, n);
    forall k | k in xs && k !in Keys(MostCommon(xs, n))
      ensures |MostCommon(xs, n)| == n && (n == 0 || multiset(xs)[k] <= MostCommon(xs, n)[n - 1].1)
    {
      MostCommonLeavesOut(xs, n, k);
    }
  }

  lemma MostCommonSorted<K(!new)>(xs: seq<K>, n: nat)
    ensures |MostCommon(xs, n)| <= n
    ensures NonIncreasing(MostCommon(xs, n))
    ensures UniqueKeys(MostCommon(xs, n))
  {
    var s := ValueCounts(xs);
    ValueCountsSpec(xs);
    HeadUnique(s, n);
    HeadNonIncreasing(s, n);
  }

  lemma HeadNonIncreasing<K>(t: seq<(K, nat)>, n: nat)
    requires NonIncreasing(t)
    ensures NonIncreasing(Head(t, n))
  {
  }

  lemma MostCommonEntries<K(!new)>(xs: seq<K>, n: nat)
    ensures forall i :: 0 <= i < |MostCommon(xs, n)| ==>
      var e := MostCommon(xs, n)[i]; e.0 in xs && e.1 == multiset(xs)[e.0] && e.1 >= 1
  {
    var s := ValueCounts(xs);
    var r := MostCommon(xs, n);
    ValueCountsSpec(xs);
    forall i | 0 <= i < |r| ensures r[i].0 in xs && r[i].1 == multiset(xs)[r[i].0] && r[i].1 >= 1 {
      assert r[i] == s[i];
    }
  }

  /**
   * `groupby(...).count()` with its keys sorted: every distinct key once, in
   * increasing order, with its number of occurrences; the counts add up to the
   * input's length.
   */
  lemma GroupCountsSpec<K(!new)>(xs: seq<K>, before: (K, K) -> bool)
    requires TotalOrder(before)
    ensures Increasing(Keys(Tally(xs, before)), before)
    ensures forall i :: 0 <= i < |Tally(xs, before)| ==>
      var e := Tally(xs, before)[i]; e.0 in xs && e.1 == multiset(xs)[e.0] && e.1 >= 1
    ensures forall k :: k in xs ==> k in Keys(Tally(xs, before))
    ensures Total(Tally(xs, before)) == |xs|
  {
    TallySpec(xs, before);
    TallyEntries(xs, before);
    TallyIncreasing(xs, before);
  }
}
