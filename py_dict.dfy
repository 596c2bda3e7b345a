/**
 * Python's `dict`: an insertion-ordered map. Assigning to a new key appends it at
 * the end; assigning to a present key replaces its value and keeps its position.
 * A dict is modelled by its `items()` sequence, whose keys are pairwise distinct.
 */
module PyDict {
  import opened Outcome

  type Dict<K, V> = seq<(K, V)>

  /** Keys are pairwise distinct: what every Python dict guarantees. */
  ghost predicate Valid<K, V>(d: Dict<K, V>) {
    forall i, j :: 0 <= i < j < |d| ==> d[i].0 != d[j].0
  }

  /** `list(d.keys())` */
  function Keys<K, V>(d: Dict<K, V>): seq<K> {
    seq(|d|, i requires 0 <= i < |d| => d[i].0)
  }

  /** The position of `k` among the items, if it is a key. */
  function Find<K(==, !new), V>(d: Dict<K, V>, k: K): (r: Option<nat>)
    ensures r.Some? ==> r.value < |d| && d[r.value].0 == k
    ensures r.None? <==> forall i :: 0 <= i < |d| ==> d[i].0 != k
  {
    if d == [] then None
    else if d[0].0 == k then Some(0)
    else match Find(d[1..], k)
      case Some(i) => Some(i + 1)
      case None => None
  }

  /** In a valid dict, the key at position `i` is found at `i`. */
  lemma FindAt<K(!new), V>(d: Dict<K, V>, i: nat)
    requires Valid(d) && i < |d|
    ensures Find(d, d[i].0) == Some(i)
  {
  }

  /** `d[k]`, or None where Python raises KeyError. */
  function Get<K(==, !new), V>(d: Dict<K, V>, k: K): Option<V> {
    match Find(d, k)
    case Some(i) => Some(d[i].1)
    case None => None
  }

  /** `d[k]` as an expression: KeyError for an absent string key. */
  function Lookup<V>(d: Dict<string, V>, k: string): (r: Result<V>)
    ensures r.Success? <==> Get(d, k).Some?
    ensures r.Success? ==> Some(r.value) == Get(d, k)
    ensures r.Failure? ==> r.error == KeyError(k)
  {
    match Get(d, k)
    case Some(v) => Success(v)
    case None => Failure(KeyError(k))
  }

  /** `d[k] = v` */
  function Put<K(==, !new), V>(d: Dict<K, V>, k: K, v: V): (r: Dict<K, V>)
    ensures Find(d, k).None? ==> r == d + [(k, v)]
    ensures Find(d, k).Some? ==> |r| == |d|
  {
    match Find(d, k)
    case Some(i) => d[i := (k, v)]
    case None => d + [(k, v)]
  }

  /** Assigning to a present key keeps every key in its position. */
  lemma PutKeys<K(!new), V>(d: Dict<K, V>, k: K, v: V)
    requires Find(d, k).Some?
    ensures Keys(Put(d, k, v)) == Keys(d)
  {
    assert forall i :: 0 <= i < |d| ==> Keys(Put(d, k, v))[i] == Keys(d)[i];
  }

  /**
   * Assignment keeps the keys distinct; afterwards `k` holds `v` and every other
   * key holds what it held before.
   */
  lemma PutGet<K(!new), V>(d: Dict<K, V>, k: K, v: V)
    requires Valid(d)
    ensures Valid(Put(d, k, v))
    ensures Get(Put(d, k, v), k) == Some(v)
    ensures forall k' :: k' != k ==> Get(Put(d, k, v), k') == Get(d, k')
  {
    var r := Put(d, k, v);
    match Find(d, k)
    case Some(i) =>
      assert r == d[i := (k, v)];
      assert Valid(r) by {
        forall a, b | 0 <= a < b < |r| ensures r[a].0 != r[b].0 {
          assert r[a].0 == d[a].0 && r[b].0 == d[b].0;
        }
      }
      FindAt(r, i);
      forall k' | k' != k ensures Get(r, k') == Get(d, k') {
        match Find(d, k')
        case Some(j) =>
          assert j != i;
          assert r[j] == d[j];
          FindAt(r, j);
        case None =>
          assert forall j :: 0 <= j < |r| ==> r[j].0 != k';
      }
    case None =>
      assert Valid(r);
      FindAt(r, |d|);
      forall k' | k' != k ensures Get(r, k') == Get(d, k') {
        match Find(d, k')
        case Some(j) =>
          assert r[j] == d[j];
          FindAt(r, j);
        case None =>
          assert forall j :: 0 <= j < |r| ==> r[j].0 != k';
      }
  }

  /** The keys of `ks` in order of first occurrence, duplicates dropped. */
  function FirstOccurrences<K(==, !new)>(ks: seq<K>): (r: seq<K>)
    ensures forall k :: k in r <==> k in ks
    ensures forall i, j :: 0 <= i < j < |r| ==> r[i] != r[j]
  {
    if ks == [] then []
    else
      var prefix := FirstOccurrences(ks[..|ks| - 1]);
      assert ks == ks[..|ks| - 1] + [ks[|ks| - 1]];
      if ks[|ks| - 1] in prefix then prefix else prefix + [ks[|ks| - 1]]
  }

  /** The key of every row, in order. */
  function RowKeys<T, K>(rows: seq<T>, key: T -> K): (ks: seq<K>)
    ensures |ks| == |rows|
  {
    seq(|rows|, i requires 0 <= i < |rows| => key(rows[i]))
  }

  /** The index of the last row whose key is `k`. */
  function LastIndex<T, K(==, !new)>(rows: seq<T>, key: T -> K, k: K): (r: Option<nat>)
    ensures r.Some? ==> r.value < |rows| && key(rows[r.value]) == k
    ensures r.Some? ==> forall j :: r.value < j < |rows| ==> key(rows[j]) != k
    ensures r.None? <==> forall j :: 0 <= j < |rows| ==> key(rows[j]) != k
  {
    if rows == [] then None
    else if key(rows[|rows| - 1]) == k then Some(|rows| - 1)
    else LastIndex(rows[..|rows| - 1], key, k)
  }

  /**
   * The dict that a loop `for row in rows: d[key(row)] = val(row)` builds from an
   * empty dict.
   */
  function Collect<T, K(==, !new), V>(rows: seq<T>, key: T -> K, val: T -> V): Dict<K, V> {
    if rows == [] then []
    else Put(Collect(rows[..|rows| - 1], key, val), key(rows[|rows| - 1]), val(rows[|rows| - 1]))
  }

  /** One more loop iteration is one more `Put`. */
  lemma CollectSnoc<T, K(!new), V>(rows: seq<T>, i: nat, key: T -> K, val: T -> V)
    requires i < |rows|
    ensures Collect(rows[..i + 1], key, val) == Put(Collect(rows[..i], key, val), key(rows[i]), val(rows[i]))
  {
    assert rows[..i + 1][..i] == rows[..i];
  }

  /** The value of the last row whose key is `k`, if any. */
  function CollectedValue<T, K(==, !new), V>(rows: seq<T>, key: T -> K, val: T -> V, k: K): Option<V> {
    match LastIndex(rows, key, k)
    case Some(j) => Some(val(rows[j]))
    case None => None
  }

  /** Under the key of a row that no later row repeats, the collected dict holds that row's value. */
  lemma CollectLast<T, K(!new), V>(rows: seq<T>, key: T -> K, val: T -> V, i: nat)
    requires i < |rows|
    requires forall j :: i < j < |rows| ==> key(rows[j]) != key(rows[i])
    ensures Get(Collect(rows, key, val), key(rows[i])) == Some(val(rows[i]))
  {
    CollectGet(rows, key, val, key(rows[i]));
    var r := LastIndex(rows, key, key(rows[i]));
    assert r.Some? && r.value >= i;
  }

  /** The collected dict is a valid dict. */
  lemma {:induction false} CollectValid<T, K(!new), V>(rows: seq<T>, key: T -> K, val: T -> V)
    ensures Valid(Collect(rows, key, val))
  {
    if rows != [] {
      CollectValid(rows[..|rows| - 1], key, val);
      PutGet(Collect(rows[..|rows| - 1], key, val), key(rows[|rows| - 1]), val(rows[|rows| - 1]));
    }
  }

  /** The keys of the collected dict are the row keys in order of first occurrence. */
  lemma {:induction false} CollectKeys<T, K(!new), V>(rows: seq<T>, key: T -> K, val: T -> V)
    ensures Keys(Collect(rows, key, val)) == FirstOccurrences(RowKeys(rows, key))
  {
    var ks := RowKeys(rows, key);
    if rows != [] {
      var n := |rows| - 1;
      var front := rows[..n];
      CollectKeys(front, key, val);
      var d := Collect(front, key, val);
      assert ks[..n] == RowKeys(front, key);
      var c := key(rows[n]);
      assert c in Keys(d) <==> Find(d, c).Some? by {
        if c in Keys(d) {
          var i :| 0 <= i < |Keys(d)| && Keys(d)[i] == c;
          assert d[i].0 == c;
        }
        if Find(d, c).Some? {
          assert Keys(d)[Find(d, c).value] == c;
        }
      }
      assert Find(d, key(rows[n])).None? ==> Keys(Put(d, key(rows[n]), val(rows[n]))) == Keys(d) + [key(rows[n])];
    }
  }

  /**
   * The value under each key is taken from the LAST row with that key: a later
   * duplicate overwrites an earlier one. A key that no row has is absent.
   */
  lemma {:induction false} CollectGet<T, K(!new), V>(rows: seq<T>, key: T -> K, val: T -> V, k: K)
    ensures Get(Collect(rows, key, val), k) == CollectedValue(rows, key, val, k)
  {
    if rows != [] {
      var n := |rows| - 1;
      var front := rows[..n];
      CollectValid(front, key, val);
      PutGet(Collect(front, key, val), key(rows[n]), val(rows[n]));
      if k != key(rows[n]) {
        CollectGet(front, key, val, k);
        assert LastIndex(rows, key, k) == LastIndex(front, key, k);
      }
    }
  }

  /**
   * The dict built by `for row in rows: d[key(row)] = val(row)` is valid, holds the
   * row keys in order of first occurrence, and under each key the value of the last
   * row with that key.
   */
  lemma CollectFacts<T, K(!new), V>(rows: seq<T>, key: T -> K, val: T -> V)
    ensures Valid(Collect(rows, key, val))
    ensures Keys(Collect(rows, key, val)) == FirstOccurrences(RowKeys(rows, key))
    ensures forall k :: Get(Collect(rows, key, val), k) == CollectedValue(rows, key, val, k)
  {
    CollectValid(rows, key, val);
    CollectKeys(rows, key, val);
    forall k ensures Get(Collect(rows, key, val), k) == CollectedValue(rows, key, val, k) {
      CollectGet(rows, key, val, k);
    }
  }

  /** When no two rows share a key, the collected dict holds every row, in row order. */
  lemma {:induction false} CollectDistinct<T, K(!new), V>(rows: seq<T>, key: T -> K, val: T -> V)
    requires forall i, j :: 0 <= i < j < |rows| ==> key(rows[i]) != key(rows[j])
    ensures Collect(rows, key, val) == seq(|rows|, i requires 0 <= i < |rows| => (key(rows[i]), val(rows[i])))
  {
    if rows != [] {
      var n := |rows| - 1;
      CollectDistinct(rows[..n], key, val);
      assert Find(Collect(rows[..n], key, val), key(rows[n])).None?;
    }
  }
}
