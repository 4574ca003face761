/** Sums over tables, and what GROUP BY keeps of them. */
module Aggregates {
  import opened Prelude

  function Sum<R>(rows: seq<R>, f: R -> real): real {
    if rows == [] then 0.0 else f(rows[0]) + Sum(rows[1..], f)
  }

  /** The sum over the rows whose key is among `keys`. */
  function SumIn<R, K(==)>(rows: seq<R>, key: R -> K, keys: set<K>, f: R -> real): real {
    if rows == [] then 0.0
    else (if key(rows[0]) in keys then f(rows[0]) else 0.0) + SumIn(rows[1..], key, keys, f)
  }

  /** One group of a grouped query, with one of its aggregate columns. */
  datatype Group<K> = Group(key: K, sum: real)

  function SumOf<K>(groups: seq<Group<K>>): real {
    if groups == [] then 0.0 else groups[0].sum + SumOf(groups[1..])
  }

  function KeySet<K>(groups: seq<Group<K>>): (s: set<K>)
    ensures forall k :: k in s ==> exists i :: 0 <= i < |groups| && groups[i].key == k
    ensures forall i :: 0 <= i < |groups| ==> groups[i].key in s
  {
    set i | 0 <= i < |groups| :: groups[i].key
  }

  predicate DistinctKeys<K(==)>(groups: seq<Group<K>>) {
    forall i, j :: 0 <= i < j < |groups| ==> groups[i].key != groups[j].key
  }

  /** `groups` is a result of SELECT key, SUM(f) FROM rows GROUP BY key, in some order: one group for
      each key that occurs, holding the sum over its rows. */
  ghost predicate IsGroupBy<R, K>(rows: seq<R>, key: R -> K, f: R -> real, groups: seq<Group<K>>) {
    && DistinctKeys(groups)
    && (forall i :: 0 <= i < |rows| ==> key(rows[i]) in KeySet(groups))
    && (forall g :: 0 <= g < |groups| ==> groups[g].sum == SumIn(rows, key, {groups[g].key}, f))
    && (forall g :: 0 <= g < |groups| ==> exists i :: 0 <= i < |rows| && key(rows[i]) == groups[g].key)
  }

  lemma {:induction false} SumConcat<R>(a: seq<R>, b: seq<R>, f: R -> real)
    ensures Sum(a + b, f) == Sum(a, f) + Sum(b, f)
  {
    if a == [] {
      assert a + b == b;
    } else {
      assert (a + b)[1..] == a[1..] + b;
      SumConcat(a[1..], b, f);
    }
  }

  lemma {:induction false} SumInNone<R, K>(rows: seq<R>, key: R -> K, f: R -> real)
    ensures SumIn(rows, key, {}, f) == 0.0
  {
    if rows != [] {
      SumInNone(rows[1..], key, f);
    }
  }

  lemma {:induction false} SumInSplit<R, K>(rows: seq<R>, key: R -> K, a: set<K>, b: set<K>, f: R -> real)
    requires a !! b
    ensures SumIn(rows, key, a + b, f) == SumIn(rows, key, a, f) + SumIn(rows, key, b, f)
  {
    if rows != [] {
      SumInSplit(rows[1..], key, a, b, f);
    }
  }

  lemma {:induction false} SumInAll<R, K>(rows: seq<R>, key: R -> K, keys: set<K>, f: R -> real)
    requires forall i :: 0 <= i < |rows| ==> key(rows[i]) in keys
    ensures SumIn(rows, key, keys, f) == Sum(rows, f)
  {
    if rows != [] {
      SumInAll(rows[1..], key, keys, f);
    }
  }

  lemma DistinctTail<K>(part: seq<Group<K>>)
    requires part != [] && DistinctKeys(part)
    ensures DistinctKeys(part[1..]) && part[0].key !in KeySet(part[1..])
    ensures KeySet(part) == {part[0].key} + KeySet(part[1..])
  {
    var rest := part[1..];
    forall k | k in KeySet(part)
      ensures k in {part[0].key} + KeySet(rest)
    {
      var i :| 0 <= i < |part| && part[i].key == k;
      if i > 0 {
        assert rest[i - 1].key == k;
      }
    }
    forall k | k in KeySet(rest)
      ensures k in KeySet(part) && k != part[0].key
    {
      var i :| 0 <= i < |rest| && rest[i].key == k;
      assert part[i + 1].key == k;
    }
  }

  /** Adding up any part of a grouped result gives the sum over the rows of the groups in that part. */
  lemma {:induction false} SumOfGroups<R, K>(rows: seq<R>, key: R -> K, f: R -> real, part: seq<Group<K>>)
    requires DistinctKeys(part)
    requires forall g :: 0 <= g < |part| ==> part[g].sum == SumIn(rows, key, {part[g].key}, f)
    ensures SumOf(part) == SumIn(rows, key, KeySet(part), f)
    decreases |part|
  {
    if part == [] {
      assert KeySet(part) == {};
      SumInNone(rows, key, f);
    } else {
      DistinctTail(part);
      SumOfGroups(rows, key, f, part[1..]);
      SumInSplit(rows, key, {part[0].key}, KeySet(part[1..]), f);
    }
  }

  /** Grouping conserves every sum, whatever the key and the order of the groups. */
  lemma GroupingConserves<R, K>(rows: seq<R>, key: R -> K, f: R -> real, groups: seq<Group<K>>)
    requires IsGroupBy(rows, key, f, groups)
    ensures SumOf(groups) == Sum(rows, f)
  {
    SumOfGroups(rows, key, f, groups);
    SumInAll(rows, key, KeySet(groups), f);
  }

  // ----- LIMIT -----

  lemma {:induction false} SumInCounts<R, K>(rows: seq<R>, key: R -> K, keys: set<K>, f: R -> real)
    requires forall i :: 0 <= i < |rows| ==> f(rows[i]) == 1.0
    ensures SumIn(rows, key, keys, f) <= |rows| as real
    ensures (exists i :: 0 <= i < |rows| && key(rows[i]) !in keys) ==> SumIn(rows, key, keys, f) < |rows| as real
  {
    if rows != [] {
      SumInCounts(rows[1..], key, keys, f);
      if i :| 0 <= i < |rows| && key(rows[i]) !in keys {
        if i > 0 {
          assert rows[1..][i - 1] == rows[i];
        }
      }
    }
  }

  lemma {:induction false} SumCounts<R>(rows: seq<R>, f: R -> real)
    requires forall i :: 0 <= i < |rows| ==> f(rows[i]) == 1.0
    ensures Sum(rows, f) == |rows| as real
  {
    if rows != [] {
      SumCounts(rows[1..], f);
    }
  }

  /** With a row limit the total covers the rows of the groups that are kept. */
  lemma LimitedSum<R, K>(rows: seq<R>, key: R -> K, f: R -> real, groups: seq<Group<K>>, limit: nat)
    requires IsGroupBy(rows, key, f, groups)
    ensures
      var kept := groups[..Min(limit, |groups|)];
      SumOf(kept) == SumIn(rows, key, KeySet(kept), f) && (|groups| <= limit ==> SumOf(kept) == Sum(rows, f))
  {
    var n := Min(limit, |groups|);
    SumOfGroups(rows, key, f, groups[..n]);
    if |groups| <= limit {
      assert groups[..n] == groups;
      GroupingConserves(rows, key, f, groups);
    }
  }

  /** Counting rows shows whether the limit cut anything off. */
  lemma LimitedCount<R, K>(rows: seq<R>, key: R -> K, f: R -> real, groups: seq<Group<K>>, limit: nat)
    requires IsGroupBy(rows, key, f, groups)
    requires forall i :: 0 <= i < |rows| ==> f(rows[i]) == 1.0
    ensures SumOf(groups[..Min(limit, |groups|)]) == |rows| as real <==> |groups| <= limit
  {
    LimitedSum(rows, key, f, groups, limit);
    if |groups| <= limit {
      SumCounts(rows, f);
    } else {
      var kept := groups[..limit];
      var i :| 0 <= i < |rows| && key(rows[i]) == groups[limit].key;
      assert key(rows[i]) !in KeySet(kept);
      SumInCounts(rows, key, KeySet(kept), f);
    }
  }
}
