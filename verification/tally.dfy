/**
 * The aggregations behind the summaries: `groupby(...).sum()`,
 * `value_counts()`, and sorting a (key, value) table by a numeric rank.
 */
module Tally {
  import opened Frames

  /** `Series.sum()` over a column without missing values. */
  function Sum(xs: seq<real>): real {
    if xs == [] then 0.0 else xs[0] + Sum(xs[1..])
  }

  /** The total of the values whose key is `k`. */
  function SumFor<K(==)>(keys: seq<K>, vals: seq<real>, k: K): real
    requires |keys| == |vals|
  {
    if keys == [] then 0.0
    else (if keys[0] == k then vals[0] else 0.0) + SumFor(keys[1..], vals[1..], k)
  }

  /** `Series.nunique()`: the number of distinct values. */
  function CountDistinct<K(==)>(keys: seq<K>): (n: nat)
    ensures n <= |keys|
  {
    DistinctAtMostLength(keys);
    |set k | k in keys|
  }

  lemma {:induction false} DistinctAtMostLength<K>(keys: seq<K>)
    ensures |set k | k in keys| <= |keys|
  {
    if keys != [] {
      var rest := keys[1..];
      DistinctAtMostLength(rest);
      assert (set k | k in keys) == (set k | k in rest) + {keys[0]} by {
        assert keys == [keys[0]] + rest;
      }
    }
  }

  /** The distinct keys in order of first appearance. */
  function Dedup<K(==,!new)>(keys: seq<K>): (d: seq<K>)
    ensures Distinct(d)
    ensures forall k :: k in d <==> k in keys
  {
    if keys == [] then []
    else
      var init := keys[..|keys| - 1];
      var d := Dedup(init);
      var k := keys[|keys| - 1];
      assert keys == init + [k];
      if k in d then d else d + [k]
  }

  function KeysOf<K, V>(g: seq<(K, V)>): (ks: seq<K>)
    ensures |ks| == |g|
  {
    seq(|g|, i requires 0 <= i < |g| => g[i].0)
  }

  /** `groupby(key)[value].sum()`: one (key, total) per distinct key. */
  function GroupSums<K(==,!new)>(keys: seq<K>, vals: seq<real>): (g: seq<(K, real)>)
    requires |keys| == |vals|
    ensures Distinct(KeysOf(g))
    ensures forall k :: k in keys <==> k in KeysOf(g)
  {
    var d := Dedup(keys);
    var g := seq(|d|, i requires 0 <= i < |d| => (d[i], SumFor(keys, vals, d[i])));
    assert KeysOf(g) == d;
    g
  }

  /** `value_counts()`: one (key, number of occurrences) per distinct key. */
  function Counts<K(==,!new)>(keys: seq<K>): (g: seq<(K, nat)>)
    ensures Distinct(KeysOf(g))
    ensures forall k :: k in keys <==> k in KeysOf(g)
  {
    var d := Dedup(keys);
    var g := seq(|d|, i requires 0 <= i < |d| => (d[i], multiset(keys)[d[i]]));
    assert KeysOf(g) == d;
    g
  }

  /** The value of a (key, total) entry. */
  function Total<K>(p: (K, real)): real { p.1 }

  /** The value of a (key, count) entry, as a rank. */
  function Tallied<K>(p: (K, nat)): real { p.1 as real }

  /** Sum of `f` over a sequence. */
  function SumOf<T>(s: seq<T>, f: T -> real): real {
    if s == [] then 0.0 else f(s[0]) + SumOf(s[1..], f)
  }

  // ---------------------------------------------------------------------
  // Totals over the distinct keys

  /** Sum of the per-key totals over the keys in `ks`. */
  function TotalOver<K(==)>(ks: seq<K>, keys: seq<K>, vals: seq<real>): real
    requires |keys| == |vals|
  {
    if ks == [] then 0.0 else SumFor(keys, vals, ks[0]) + TotalOver(ks[1..], keys, vals)
  }

  lemma {:induction false} TotalOverCons<K>(ks: seq<K>, x: K, v: real, keys: seq<K>, vals: seq<real>)
    requires |keys| == |vals| && Distinct(ks)
    ensures TotalOver(ks, [x] + keys, [v] + vals) == TotalOver(ks, keys, vals) + (if x in ks then v else 0.0)
  {
    if ks != [] {
      assert ([x] + keys)[1..] == keys && ([v] + vals)[1..] == vals;
      TotalOverCons(ks[1..], x, v, keys, vals);
      assert x in ks <==> x == ks[0] || x in ks[1..];
      assert ks[0] !in ks[1..];
    }
  }

  /** Per-key totals over a set of keys that covers every key add up to the grand total. */
  lemma {:induction false} TotalOverCovering<K>(ks: seq<K>, keys: seq<K>, vals: seq<real>)
    requires |keys| == |vals| && Distinct(ks)
    requires forall k :: k in keys ==> k in ks
    ensures TotalOver(ks, keys, vals) == Sum(vals)
  {
    if keys == [] {
      TotalOverEmpty(ks);
    } else {
      assert keys == [keys[0]] + keys[1..] && vals == [vals[0]] + vals[1..];
      TotalOverCovering(ks, keys[1..], vals[1..]);
      TotalOverCons(ks, keys[0], vals[0], keys[1..], vals[1..]);
    }
  }

  lemma {:induction false} TotalOverEmpty<K>(ks: seq<K>)
    ensures TotalOver(ks, [], []) == 0.0
  {
    if ks != [] {
      TotalOverEmpty(ks[1..]);
    }
  }

  lemma {:induction false} SumOfGroups<K>(d: seq<K>, keys: seq<K>, vals: seq<real>, g: seq<(K, real)>)
    requires |keys| == |vals| && |g| == |d|
    requires forall i :: 0 <= i < |d| ==> g[i] == (d[i], SumFor(keys, vals, d[i]))
    ensures SumOf(g, Total) == TotalOver(d, keys, vals)
  {
    if d != [] {
      SumOfGroups(d[1..], keys, vals, g[1..]);
    }
  }

  /** The group totals add up to the column total: no row is dropped or counted twice. */
  lemma GroupSumsTotal<K(!new)>(keys: seq<K>, vals: seq<real>)
    requires |keys| == |vals|
    ensures SumOf(GroupSums(keys, vals), Total) == Sum(vals)
  {
    var d := Dedup(keys);
    SumOfGroups(d, keys, vals, GroupSums(keys, vals));
    TotalOverCovering(d, keys, vals);
  }

  /** Each group holds the total of exactly its own rows. */
  lemma GroupSumsEntry<K(!new)>(keys: seq<K>, vals: seq<real>, i: nat)
    requires |keys| == |vals| && i < |GroupSums(keys, vals)|
    ensures GroupSums(keys, vals)[i].1 == SumFor(keys, vals, GroupSums(keys, vals)[i].0)
  {
  }

  /** Sum of the occurrence counts over the keys in `ks`. */
  function CountOver<K(==)>(ks: seq<K>, keys: seq<K>): nat {
    if ks == [] then 0 else multiset(keys)[ks[0]] + CountOver(ks[1..], keys)
  }

  lemma {:induction false} CountOverCons<K>(ks: seq<K>, x: K, keys: seq<K>)
    requires Distinct(ks)
    ensures CountOver(ks, [x] + keys) == CountOver(ks, keys) + (if x in ks then 1 else 0)
  {
    if ks != [] {
      CountOverCons(ks[1..], x, keys);
      assert x in ks <==> x == ks[0] || x in ks[1..];
      assert ks[0] !in ks[1..];
    }
  }

  lemma {:induction false} CountOverCovering<K>(ks: seq<K>, keys: seq<K>)
    requires Distinct(ks)
    requires forall k :: k in keys ==> k in ks
    ensures CountOver(ks, keys) == |keys|
  {
    if keys == [] {
      CountOverEmpty(ks);
    } else {
      assert keys == [keys[0]] + keys[1..];
      CountOverCovering(ks, keys[1..]);
      CountOverCons(ks, keys[0], keys[1..]);
    }
  }

  lemma {:induction false} CountOverEmpty<K>(ks: seq<K>)
    ensures CountOver(ks, []) == 0
  {
    if ks != [] {
      CountOverEmpty(ks[1..]);
    }
  }

  lemma {:induction false} SumOfCounts<K>(d: seq<K>, keys: seq<K>, g: seq<(K, nat)>)
    requires |g| == |d|
    requires forall i :: 0 <= i < |d| ==> g[i] == (d[i], multiset(keys)[d[i]])
    ensures SumOf(g, Tallied) == CountOver(d, keys) as real
  {
    if d != [] {
      SumOfCounts(d[1..], keys, g[1..]);
    }
  }

  /** The counts add up to the number of rows. */
  lemma CountsTotal<K(!new)>(keys: seq<K>)
    ensures SumOf(Counts(keys), Tallied) == |keys| as real
  {
    var d := Dedup(keys);
    SumOfCounts(d, keys, Counts(keys));
    CountOverCovering(d, keys);
  }

  // ---------------------------------------------------------------------
  // Sorting by a rank, largest first

  predicate SortedBy<T>(s: seq<T>, rank: T -> real) {
    forall i, j :: 0 <= i < j < |s| ==> rank(s[i]) >= rank(s[j])
  }

  /** Places `x` before the first element of strictly smaller rank. */
  function Insert<T>(x: T, s: seq<T>, rank: T -> real): (r: seq<T>)
    requires SortedBy(s, rank)
    ensures SortedBy(r, rank)
    ensures multiset(r) == multiset(s) + multiset{x}
  {
    if s == [] then [x]
    else if rank(x) >= rank(s[0]) then
      InsertFront(x, s, rank);
      [x] + s
    else
      var rest := Insert(x, s[1..], rank);
      InsertBehind(x, s, rest, rank);
      [s[0]] + rest
  }

  /** `x` ranked at least as high as the head goes in front. */
  lemma InsertFront<T>(x: T, s: seq<T>, rank: T -> real)
    requires SortedBy(s, rank) && s != [] && rank(x) >= rank(s[0])
    ensures SortedBy([x] + s, rank)
    ensures multiset([x] + s) == multiset(s) + multiset{x}
  {
    var r := [x] + s;
    forall i, j | 0 <= i < j < |r| ensures rank(r[i]) >= rank(r[j]) {
      if i == 0 {
        assert r[j] == s[j - 1];
      } else {
        assert r[i] == s[i - 1] && r[j] == s[j - 1];
      }
    }
  }

  /** `x` ranked below the head goes into the tail, behind the head. */
  lemma InsertBehind<T>(x: T, s: seq<T>, rest: seq<T>, rank: T -> real)
    requires SortedBy(s, rank) && s != [] && rank(x) < rank(s[0])
    requires SortedBy(rest, rank) && multiset(rest) == multiset(s[1..]) + multiset{x}
    ensures SortedBy([s[0]] + rest, rank)
    ensures multiset([s[0]] + rest) == multiset(s) + multiset{x}
  {
    assert s == [s[0]] + s[1..];
    forall k | 0 <= k < |rest| ensures rank(s[0]) >= rank(rest[k]) {
      assert rest[k] in multiset(rest);
      if rest[k] != x {
        assert rest[k] in multiset(s[1..]);
        var m :| 0 <= m < |s[1..]| && s[1..][m] == rest[k];
        assert s[m + 1] == rest[k];
      }
    }
    var r := [s[0]] + rest;
    forall i, j | 0 <= i < j < |r| ensures rank(r[i]) >= rank(r[j]) {
      assert r[j] == rest[j - 1];
      if i > 0 {
        assert r[i] == rest[i - 1];
      }
    }
  }

  /** `sort_values(ascending=False)` on the rank. */
  function SortDesc<T>(s: seq<T>, rank: T -> real): (r: seq<T>)
    ensures SortedBy(r, rank)
    ensures multiset(r) == multiset(s)
  {
    if s == [] then []
    else
      assert s == [s[0]] + s[1..];
      Insert(s[0], SortDesc(s[1..], rank), rank)
  }

  lemma {:induction false} InsertSum<T>(x: T, s: seq<T>, rank: T -> real, f: T -> real)
    requires SortedBy(s, rank)
    ensures SumOf(Insert(x, s, rank), f) == SumOf(s, f) + f(x)
  {
    if s != [] && rank(x) < rank(s[0]) {
      InsertSum(x, s[1..], rank, f);
    }
  }

  /** Sorting neither adds nor loses any amount. */
  lemma {:induction false} SortSum<T>(s: seq<T>, rank: T -> real, f: T -> real)
    ensures SumOf(SortDesc(s, rank), f) == SumOf(s, f)
  {
    if s != [] {
      SortSum(s[1..], rank, f);
      InsertSum(s[0], SortDesc(s[1..], rank), rank, f);
    }
  }

  lemma {:induction false} DistinctAtMostOnce<T>(s: seq<T>, x: T)
    requires Distinct(s)
    ensures multiset(s)[x] <= 1
  {
    if s != [] {
      assert s == [s[0]] + s[1..];
      DistinctAtMostOnce(s[1..], x);
    }
  }

  lemma RepeatedTwice<T>(s: seq<T>, i: nat, j: nat)
    requires i < j < |s| && s[i] == s[j]
    ensures multiset(s)[s[i]] >= 2
  {
    assert s == s[..j] + s[j..];
    assert s[..j][i] == s[i];
    assert s[j..][0] == s[i];
  }

  /** Reordering keeps a sequence free of repeats. */
  lemma PermutationKeepsDistinct<T>(a: seq<T>, b: seq<T>)
    requires multiset(a) == multiset(b) && Distinct(a)
    ensures Distinct(b)
  {
    forall i, j | 0 <= i < j < |b| ensures b[i] != b[j] {
      if b[i] == b[j] {
        RepeatedTwice(b, i, j);
        DistinctAtMostOnce(a, b[i]);
      }
    }
  }

  /** A (key, value) table whose value is a function of the key has distinct entries when its keys are distinct. */
  lemma DistinctKeysDistinctEntries<K, V>(g: seq<(K, V)>)
    requires Distinct(KeysOf(g))
    ensures Distinct(g)
  {
    forall i, j | 0 <= i < j < |g| ensures g[i] != g[j] {
      assert KeysOf(g)[i] != KeysOf(g)[j];
    }
  }

  /** Reordering keeps the keys of a (key, value) table and keeps them free of repeats. */
  lemma PermutationKeepsKeys<K, V>(a: seq<(K, V)>, b: seq<(K, V)>)
    requires multiset(a) == multiset(b)
    ensures forall k :: k in KeysOf(a) <==> k in KeysOf(b)
    ensures Distinct(KeysOf(a)) ==> Distinct(KeysOf(b))
  {
    forall k | k in KeysOf(a) ensures k in KeysOf(b) {
      var i :| 0 <= i < |a| && KeysOf(a)[i] == k;
      assert a[i] in multiset(b);
      var j :| 0 <= j < |b| && b[j] == a[i];
      assert KeysOf(b)[j] == k;
    }
    forall k | k in KeysOf(b) ensures k in KeysOf(a) {
      var j :| 0 <= j < |b| && KeysOf(b)[j] == k;
      assert b[j] in multiset(a);
      var i :| 0 <= i < |a| && a[i] == b[j];
      assert KeysOf(a)[i] == k;
    }
    if Distinct(KeysOf(a)) {
      DistinctKeysDistinctEntries(a);
      PermutationKeepsDistinct(a, b);
      forall i, j | 0 <= i < j < |b| ensures KeysOf(b)[i] != KeysOf(b)[j] {
        if KeysOf(b)[i] == KeysOf(b)[j] {
          assert b[i] in multiset(a) && b[j] in multiset(a);
          SameKeyOnce(a, b[i], b[j]);
        }
      }
    }
  }

  /** In a table with distinct keys, two entries with the same key are the same entry. */
  lemma SameKeyOnce<K, V>(a: seq<(K, V)>, x: (K, V), y: (K, V))
    requires Distinct(KeysOf(a)) && x in a && y in a && x.0 == y.0
    ensures x == y
  {
    var i :| 0 <= i < |a| && a[i] == x;
    var j :| 0 <= j < |a| && a[j] == y;
    assert KeysOf(a)[i] == KeysOf(a)[j];
  }

  /**
   * `groupby(key)[value].sum().sort_values(ascending=False)`: one entry per
   * distinct key, holding the total of that key's rows, largest first; the
   * totals add up to the column total.
   */
  function GroupSumsDesc<K(==,!new)>(keys: seq<K>, vals: seq<real>): (g: seq<(K, real)>)
    requires |keys| == |vals|
    ensures SortedBy(g, Total)
    ensures SumOf(g, Total) == Sum(vals)
    ensures Distinct(KeysOf(g)) && forall k :: k in KeysOf(g) <==> k in keys
    ensures forall p :: p in g ==> p.1 == SumFor(keys, vals, p.0)
    ensures |g| == CountDistinct(keys)
  {
    var g0 := GroupSums(keys, vals);
    var g := SortDesc(g0, Total);
    GroupSumsTotal(keys, vals);
    SortSum(g0, Total, Total);
    PermutationKeepsKeys(g0, g);
    assert forall p :: p in g ==> p in multiset(g0);
    DistinctKeysCount(g, keys);
    g
  }

  /** A table with one entry per distinct key has as many entries as there are distinct keys. */
  lemma DistinctKeysCount<K, V>(g: seq<(K, V)>, keys: seq<K>)
    requires Distinct(KeysOf(g)) && forall k :: k in KeysOf(g) <==> k in keys
    ensures |g| == CountDistinct(keys)
  {
    var ks := KeysOf(g);
    assert (set k | k in keys) == (set k | k in ks);
    DistinctSetSize(ks);
  }

  lemma {:induction false} DistinctSetSize<K>(s: seq<K>)
    requires Distinct(s)
    ensures |set k | k in s| == |s|
  {
    if s != [] {
      var rest := s[1..];
      DistinctSetSize(rest);
      assert (set k | k in s) == (set k | k in rest) + {s[0]} by {
        assert s == [s[0]] + rest;
      }
      assert s[0] !in rest;
    }
  }

  /**
   * `value_counts()`: one entry per distinct value with its number of
   * occurrences, most frequent first; the counts add up to the row count.
   */
  function ValueCounts<K(==,!new)>(keys: seq<K>): (g: seq<(K, nat)>)
    ensures SortedBy(g, Tallied)
    ensures SumOf(g, Tallied) == |keys| as real
    ensures Distinct(KeysOf(g)) && forall k :: k in KeysOf(g) <==> k in keys
    ensures forall p :: p in g ==> p.1 == multiset(keys)[p.0]
  {
    var g0 := Counts(keys);
    var g := SortDesc(g0, Tallied);
    CountsTotal(keys);
    SortSum(g0, Tallied, Tallied);
    PermutationKeepsKeys(g0, g);
    assert forall p :: p in g ==> p in multiset(g0);
    g
  }

  /** A numbering of keys that tells different keys apart. */
  ghost predicate Injective<K(!new)>(index: K -> int) {
    forall a, b :: index(a) == index(b) ==> a == b
  }

  /** Ranks an entry so that a smaller key index comes first. */
  function Earlier<K>(index: K -> int): ((K, nat)) -> real {
    (p: (K, nat)) => -(index(p.0) as real)
  }

  /**
   * `value_counts().sort_index()`: one entry per distinct value with its
   * number of occurrences, in strictly ascending key order.
   */
  function CountsByKey<K(==,!new)>(keys: seq<K>, index: K -> int): (g: seq<(K, nat)>)
    requires Injective(index)
    ensures forall a, b :: 0 <= a < b < |g| ==> index(g[a].0) < index(g[b].0)
    ensures SumOf(g, Tallied) == |keys| as real
    ensures Distinct(KeysOf(g)) && forall k :: k in KeysOf(g) <==> k in keys
    ensures forall p :: p in g ==> p.1 == multiset(keys)[p.0]
  {
    var g0 := Counts(keys);
    var g := SortDesc(g0, Earlier(index));
    CountsTotal(keys);
    SortSum(g0, Earlier(index), Tallied);
    PermutationKeepsKeys(g0, g);
    assert forall p :: p in g ==> p in multiset(g0);
    forall a, b | 0 <= a < b < |g| ensures index(g[a].0) < index(g[b].0) {
      assert Earlier(index)(g[a]) >= Earlier(index)(g[b]);
      assert KeysOf(g)[a] != KeysOf(g)[b];
    }
    g
  }
}
