/**
  The 'PairWithOne' and 'GroupAndSum' steps of the word-count pipeline.
  PairWithOne turns every word into the pair (word, 1); GroupAndSum is
  CombinePerKey(sum): it emits one (key, total) entry per distinct key, the
  total being the sum of every value paired with that key. Only this
  observable meaning is modelled; the totals are gathered here as a single
  accumulator table filled in input order, as a one-process runner does.
 */
module GroupAndSum {

  /** PairWithOne: every key becomes the pair (key, 1), in the same order. */
  function PairWithOne<K(==)>(keys: seq<K>): (pairs: seq<(K, nat)>)
    ensures |pairs| == |keys|
    ensures forall i :: 0 <= i < |keys| ==> pairs[i] == (keys[i], 1)
  {
    if keys == [] then [] else [(keys[0], 1)] + PairWithOne(keys[1..])
  }

  lemma PairWithOneAppend<K>(a: seq<K>, b: seq<K>)
    ensures PairWithOne(a + b) == PairWithOne(a) + PairWithOne(b)
  {
    var l, r := PairWithOne(a + b), PairWithOne(a) + PairWithOne(b);
    assert |l| == |r|;
    forall i | 0 <= i < |l| ensures l[i] == r[i] {
      if i >= |a| {
        assert (a + b)[i] == b[i - |a|];
      }
    }
  }

  /** The keys that occur in a stream of pairs. */
  function KeysOf<K(==)>(pairs: seq<(K, nat)>): set<K> {
    set i | 0 <= i < |pairs| :: pairs[i].0
  }

  /** The value of `k` in `table`, and 0 for a key the table does not hold. */
  function Get<K(==)>(table: map<K, nat>, k: K): nat {
    if k in table then table[k] else 0
  }

  /** The reference meaning of sum over one key's group: the sum of the values
      that come paired with `k`, wherever they occur in the stream. */
  function SumFor<K(==)>(pairs: seq<(K, nat)>, k: K): nat {
    if pairs == [] then 0
    else (if pairs[0].0 == k then pairs[0].1 else 0) + SumFor(pairs[1..], k)
  }

  /** The sum of every value in the stream. */
  function SumAll<K(==)>(pairs: seq<(K, nat)>): nat {
    if pairs == [] then 0 else pairs[0].1 + SumAll(pairs[1..])
  }

  /** Adds every pair of the stream, in order, into the per-key accumulator table. */
  function Accumulate<K(==)>(table: map<K, nat>, pairs: seq<(K, nat)>): map<K, nat>
    decreases |pairs|
  {
    if pairs == [] then table
    else
      var (k, v) := pairs[0];
      Accumulate(table[k := Get(table, k) + v], pairs[1..])
  }

  /** After the stream is exhausted the table holds every key it started with
      or met, each with its starting value plus the sum of its values. */
  lemma {:induction false} AccumulateMeaning<K>(table: map<K, nat>, pairs: seq<(K, nat)>)
    ensures Accumulate(table, pairs).Keys == table.Keys + KeysOf(pairs)
    ensures forall k :: k in Accumulate(table, pairs) ==>
      Accumulate(table, pairs)[k] == Get(table, k) + SumFor(pairs, k)
    decreases |pairs|
  {
    if pairs != [] {
      var (k, v) := pairs[0];
      KeysOfCons(pairs);
      AccumulateMeaning(table[k := Get(table, k) + v], pairs[1..]);
    }
  }

  lemma KeysOfCons<K>(pairs: seq<(K, nat)>)
    requires pairs != []
    ensures KeysOf(pairs) == {pairs[0].0} + KeysOf(pairs[1..])
  {
    assert forall i :: 1 <= i < |pairs| ==> pairs[i] == pairs[1..][i - 1];
  }

  /** CombinePerKey(sum): exactly one entry per distinct key of the stream,
      holding the sum of that key's values. */
  function GroupSum<K(==)>(pairs: seq<(K, nat)>): (totals: map<K, nat>)
    ensures totals.Keys == KeysOf(pairs)
    ensures forall k :: k in totals ==> totals[k] == SumFor(pairs, k)
  {
    AccumulateMeaning(map[], pairs);
    Accumulate(map[], pairs)
  }

  /** Combines two partial tables, as a runner does with the tables of two
      shards: the union of their keys, each with the sum of its two values. */
  function Merge<K(==)>(left: map<K, nat>, right: map<K, nat>): map<K, nat> {
    map k | k in left.Keys + right.Keys :: Get(left, k) + Get(right, k)
  }

  /** The empty table is the unit of Merge: a shard with no pairs changes nothing. */
  lemma MergeUnit<K>(table: map<K, nat>)
    ensures Merge(table, map[]) == table && Merge(map[], table) == table
  {
    var empty: map<K, nat> := map[];
    assert Merge(table, empty).Keys == table.Keys;
    assert Merge(empty, table).Keys == table.Keys;
  }

  /** Merge is commutative: the order in which two shards report does not matter. */
  lemma MergeCommutative<K>(left: map<K, nat>, right: map<K, nat>)
    ensures Merge(left, right) == Merge(right, left)
  {
  }

  /** Merge is associative: the partial tables of many shards can be merged in
      any grouping. */
  lemma MergeAssociative<K>(a: map<K, nat>, b: map<K, nat>, c: map<K, nat>)
    ensures Merge(Merge(a, b), c) == Merge(a, Merge(b, c))
  {
    var left, right := Merge(Merge(a, b), c), Merge(a, Merge(b, c));
    assert left.Keys == right.Keys;
    forall k | k in left ensures left[k] == right[k] {
      assert left[k] == Get(a, k) + Get(b, k) + Get(c, k);
    }
  }

  lemma {:induction false} SumForAppend<K>(p: seq<(K, nat)>, q: seq<(K, nat)>, k: K)
    ensures SumFor(p + q, k) == SumFor(p, k) + SumFor(q, k)
    decreases |p|
  {
    if p == [] {
      assert p + q == q;
    } else {
      assert (p + q)[0] == p[0];
      assert (p + q)[1..] == p[1..] + q;
      SumForAppend(p[1..], q, k);
    }
  }

  lemma {:induction false} SumForAbsent<K>(pairs: seq<(K, nat)>, k: K)
    requires k !in KeysOf(pairs)
    ensures SumFor(pairs, k) == 0
    decreases |pairs|
  {
    if pairs != [] {
      assert pairs[0].0 != k;
      forall i | 0 <= i < |pairs[1..]| ensures pairs[1..][i].0 != k {
        assert pairs[1..][i] == pairs[i + 1];
      }
      SumForAbsent(pairs[1..], k);
    }
  }

  lemma KeysOfAppend<K>(p: seq<(K, nat)>, q: seq<(K, nat)>)
    ensures KeysOf(p + q) == KeysOf(p) + KeysOf(q)
  {
    forall k | k in KeysOf(p + q) ensures k in KeysOf(p) + KeysOf(q) {
      var i :| 0 <= i < |p + q| && (p + q)[i].0 == k;
      if i >= |p| {
        assert q[i - |p|].0 == k;
      }
    }
    forall k | k in KeysOf(p) ensures k in KeysOf(p + q) {
      var i :| 0 <= i < |p| && p[i].0 == k;
      assert (p + q)[i].0 == k;
    }
    forall k | k in KeysOf(q) ensures k in KeysOf(p + q) {
      var i :| 0 <= i < |q| && q[i].0 == k;
      assert (p + q)[i + |p|].0 == k;
    }
  }

  /** Sharding the stream, combining each shard, then merging the partial
      tables gives what combining the whole stream gives: the property that
      lets CombinePerKey(sum) run on several workers. */
  lemma GroupSumSharded<K>(p: seq<(K, nat)>, q: seq<(K, nat)>)
    ensures GroupSum(p + q) == Merge(GroupSum(p), GroupSum(q))
  {
    var whole, merged := GroupSum(p + q), Merge(GroupSum(p), GroupSum(q));
    KeysOfAppend(p, q);
    forall k | k in whole ensures whole[k] == merged[k] {
      ShardedSum(p, q, k);
    }
  }

  lemma ShardedSum<K>(p: seq<(K, nat)>, q: seq<(K, nat)>, k: K)
    ensures SumFor(p + q, k) == Get(GroupSum(p), k) + Get(GroupSum(q), k)
  {
    SumForAppend(p, q, k);
    if k !in KeysOf(p) {
      SumForAbsent(p, k);
    }
    if k !in KeysOf(q) {
      SumForAbsent(q, k);
    }
  }

  lemma SumForRemove<K>(q: seq<(K, nat)>, j: nat, k: K)
    requires j < |q|
    ensures SumFor(q, k) == (if q[j].0 == k then q[j].1 else 0) + SumFor(q[..j] + q[j + 1..], k)
  {
    assert q[..j] + q[j..] == q;
    SumForAppend(q[..j], q[j..], k);
    assert q[j..][0] == q[j] && q[j..][1..] == q[j + 1..];
    SumForAppend(q[..j], q[j + 1..], k);
  }

  /** Taking one element out of a sequence takes it out of its multiset. */
  lemma MultisetWithout<T>(s: seq<T>, j: nat)
    requires j < |s|
    ensures multiset(s[..j] + s[j + 1..]) == multiset(s) - multiset{s[j]}
  {
    assert s == s[..j] + [s[j]] + s[j + 1..];
    assert multiset(s) == multiset(s[..j]) + multiset{s[j]} + multiset(s[j + 1..]);
  }

  /** The sum for a key depends only on which pairs occur how often, not on their order. */
  lemma {:induction false} SumForPermutation<K>(p: seq<(K, nat)>, q: seq<(K, nat)>, k: K)
    requires multiset(p) == multiset(q)
    ensures SumFor(p, k) == SumFor(q, k)
    decreases |p|
  {
    if p == [] {
      assert |q| == |multiset(q)| == 0;
    } else {
      var x := p[0];
      assert x in multiset(q);
      var j :| 0 <= j < |q| && q[j] == x;
      var rest := q[..j] + q[j + 1..];
      MultisetWithout(q, j);
      assert p == [x] + p[1..];
      assert multiset(p[1..]) == multiset(p) - multiset{x};
      SumForPermutation(p[1..], rest, k);
      SumForRemove(q, j, k);
    }
  }

  lemma KeysOfPermutation<K>(p: seq<(K, nat)>, q: seq<(K, nat)>)
    requires multiset(p) == multiset(q)
    ensures KeysOf(p) == KeysOf(q)
  {
    forall k | k in KeysOf(p) ensures k in KeysOf(q) {
      var i :| 0 <= i < |p| && p[i].0 == k;
      assert p[i] in multiset(q);
      var j :| 0 <= j < |q| && q[j] == p[i];
    }
    forall k | k in KeysOf(q) ensures k in KeysOf(p) {
      var j :| 0 <= j < |q| && q[j].0 == k;
      assert q[j] in multiset(p);
      var i :| 0 <= i < |p| && p[i] == q[j];
    }
  }

  /** Because sum is associative and commutative, the combined table does not
      depend on the order in which the pairs arrive. */
  lemma GroupSumPermutation<K>(p: seq<(K, nat)>, q: seq<(K, nat)>)
    requires multiset(p) == multiset(q)
    ensures GroupSum(p) == GroupSum(q)
  {
    KeysOfPermutation(p, q);
    forall k | k in GroupSum(p) ensures GroupSum(p)[k] == GroupSum(q)[k] {
      SumForPermutation(p, q, k);
    }
  }

  /** The sum of all values of a table. */
  ghost function SumValues<K>(table: map<K, nat>): nat
    decreases |table|
  {
    if table == map[] then 0
    else
      var k :| k in table;
      assert |table - {k}| < |table| by { CardRemove(table, k); }
      table[k] + SumValues(table - {k})
  }

  lemma CardRemove<K>(table: map<K, nat>, k: K)
    requires k in table
    ensures |table - {k}| == |table| - 1
  {
    assert (table - {k}).Keys == table.Keys - {k};
  }

  /** The sum of a table can start from any key it holds. */
  lemma {:induction false} SumValuesRemove<K>(table: map<K, nat>, k: K)
    requires k in table
    ensures SumValues(table) == table[k] + SumValues(table - {k})
    decreases |table|
  {
    var j :| j in table && SumValues(table) == table[j] + SumValues(table - {j});
    if j != k {
      CardRemove(table, j);
      CardRemove(table, k);
      SumValuesRemove(table - {j}, k);
      SumValuesRemove(table - {k}, j);
      assert table - {j} - {k} == table - {k} - {j};
    }
  }

  lemma SumValuesAdd<K>(table: map<K, nat>, k: K, v: nat)
    ensures SumValues(table[k := Get(table, k) + v]) == SumValues(table) + v
  {
    var updated := table[k := Get(table, k) + v];
    SumValuesRemove(updated, k);
    if k in table {
      SumValuesRemove(table, k);
      assert updated - {k} == table - {k};
    } else {
      assert updated - {k} == table;
    }
  }

  lemma {:induction false} AccumulateTotal<K>(table: map<K, nat>, pairs: seq<(K, nat)>)
    ensures SumValues(Accumulate(table, pairs)) == SumValues(table) + SumAll(pairs)
    decreases |pairs|
  {
    if pairs != [] {
      var k, v := pairs[0].0, pairs[0].1;
      var next := table[k := Get(table, k) + v];
      calc {
        SumValues(Accumulate(table, pairs));
        SumValues(Accumulate(next, pairs[1..]));
        { AccumulateTotal(next, pairs[1..]); }
        SumValues(next) + SumAll(pairs[1..]);
        { SumValuesAdd(table, k, v); }
        SumValues(table) + v + SumAll(pairs[1..]);
      }
    }
  }

  /** Combining loses and invents nothing: the totals add up to the sum of all
      values in the stream. */
  lemma GroupSumTotal<K>(pairs: seq<(K, nat)>)
    ensures SumValues(GroupSum(pairs)) == SumAll(pairs)
  {
    var empty: map<K, nat> := map[];
    AccumulateTotal(empty, pairs);
    assert SumValues(empty) == 0;
  }

  /** Summing the ones of PairWithOne counts: each key's total is its number
      of occurrences, and all totals together are the number of keys. */
  lemma {:induction false} CountsOfOnes<K>(keys: seq<K>, k: K)
    ensures SumFor(PairWithOne(keys), k) == multiset(keys)[k]
    ensures SumAll(PairWithOne(keys)) == |keys|
    decreases |keys|
  {
    if keys != [] {
      assert keys == [keys[0]] + keys[1..];
      assert PairWithOne(keys)[1..] == PairWithOne(keys[1..]);
      CountsOfOnes(keys[1..], k);
    }
  }

  /** The keys of the paired stream are exactly the keys that were paired. */
  lemma KeysOfOnes<K>(keys: seq<K>)
    ensures KeysOf(PairWithOne(keys)) == set k | k in keys
  {
    forall k | k in keys ensures k in KeysOf(PairWithOne(keys)) {
      var i :| 0 <= i < |keys| && keys[i] == k;
      assert PairWithOne(keys)[i].0 == k;
    }
  }
}
