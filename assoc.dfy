/** A Rust `HashMap` modelled as the list of its entries in (unspecified) iteration
    order. Inserting an existing key replaces its value where it stands; inserting a
    new key appends it. */
module Assoc {
  import opened Wrappers

  type Assoc<K, V> = seq<(K, V)>

  function Keys<K, V>(a: Assoc<K, V>): (r: seq<K>)
    ensures |r| == |a| && forall i :: 0 <= i < |a| ==> r[i] == a[i].0
  {
    seq(|a|, i requires 0 <= i < |a| => a[i].0)
  }

  function Values<K, V>(a: Assoc<K, V>): (r: seq<V>)
    ensures |r| == |a| && forall i :: 0 <= i < |a| ==> r[i] == a[i].1
  {
    seq(|a|, i requires 0 <= i < |a| => a[i].1)
  }

  predicate DistinctKeys<K(==), V>(a: Assoc<K, V>) {
    forall i, j :: 0 <= i < j < |a| ==> a[i].0 != a[j].0
  }

  /** The position of the first pair with key `k`, if any. */
  function IndexOf<K(==), V>(a: Assoc<K, V>, k: K): (r: Option<nat>)
    ensures r.Some? ==> r.value < |a| && a[r.value].0 == k
    ensures r.Some? ==> forall j :: 0 <= j < r.value ==> a[j].0 != k
    ensures r.None? ==> forall j :: 0 <= j < |a| ==> a[j].0 != k
  {
    if a == [] then None
    else if a[0].0 == k then Some(0)
    else match IndexOf(a[1..], k)
      case Some(i) => Some(i + 1)
      case None => None
  }

  /** Lists with the same keys find a key at the same position. */
  lemma IndexOfSameKeys<K, V>(a: Assoc<K, V>, b: Assoc<K, V>, k: K)
    requires Keys(a) == Keys(b)
    ensures IndexOf(a, k) == IndexOf(b, k)
  {
    match (IndexOf(a, k), IndexOf(b, k)) {
      case (Some(i), Some(j)) =>
        SameKeyAt(a, b, i);
        SameKeyAt(a, b, j);
      case (Some(i), None) =>
        SameKeyAt(a, b, i);
      case (None, Some(j)) =>
        SameKeyAt(a, b, j);
      case (None, None) =>
    }
  }

  lemma SameKeyAt<K, V>(a: Assoc<K, V>, b: Assoc<K, V>, i: nat)
    requires Keys(a) == Keys(b) && i < |a|
    ensures i < |b| && a[i].0 == b[i].0
  {
    assert Keys(a)[i] == Keys(b)[i];
  }

  /** The value stored under `k`, if any. */
  function Get<K(==), V>(a: Assoc<K, V>, k: K): (r: Option<V>)
    ensures r.None? <==> k !in Keys(a)
  {
    match IndexOf(a, k)
    case Some(i) => Some(a[i].1)
    case None => None
  }

  /** With distinct keys, every listed pair is what `Get` finds. */
  lemma GetListed<K, V>(a: Assoc<K, V>, i: nat)
    requires DistinctKeys(a) && i < |a|
    ensures Get(a, a[i].0) == Some(a[i].1)
  {
    assert Keys(a)[i] == a[i].0;
  }

  /** `HashMap::insert`. */
  function Put<K(==), V>(a: Assoc<K, V>, k: K, v: V): (r: Assoc<K, V>)
    ensures Get(r, k) == Some(v)
    ensures k in Keys(a) ==> Keys(r) == Keys(a)
    ensures k !in Keys(a) ==> Keys(r) == Keys(a) + [k]
  {
    match IndexOf(a, k)
    case Some(i) =>
      var r := a[i := (k, v)];
      assert Keys(r) == Keys(a);
      IndexOfSameKeys(r, a, k);
      r
    case None =>
      var r := a + [(k, v)];
      assert r[|a|].0 == k;
      r
  }

  lemma PutDistinct<K, V>(a: Assoc<K, V>, k: K, v: V)
    requires DistinctKeys(a)
    ensures DistinctKeys(Put(a, k, v))
  {
    var r := Put(a, k, v);
    var ka, kr := Keys(a), Keys(r);
    assert forall i, j :: 0 <= i < j < |r| ==> kr[i] != kr[j];
  }

  /** Inserting one key leaves every other key's value alone. */
  lemma GetPutOther<K, V>(a: Assoc<K, V>, k: K, v: V, other: K)
    requires other != k
    ensures Get(Put(a, k, v), other) == Get(a, other)
  {
    var r := Put(a, k, v);
    match IndexOf(a, k) {
      case Some(i) =>
        IndexOfSameKeys(r, a, other);
      case None =>
        match (IndexOf(r, other), IndexOf(a, other)) {
          case (Some(i), Some(j)) =>
            assert r[j].0 == other;
            assert a[i].0 == other;
          case _ =>
        }
    }
  }

  /** The sum of a weight over the stored values. */
  function SumBy<K, V>(a: Assoc<K, V>, w: V -> int): int {
    if a == [] then 0 else SumBy(a[..|a| - 1], w) + w(a[|a| - 1].1)
  }

  /** Replacing one pair trades its weight for the new one's. */
  lemma {:induction false} SumByUpdate<K, V>(a: Assoc<K, V>, i: nat, p: (K, V), w: V -> int)
    requires i < |a|
    ensures SumBy(a[i := p], w) == SumBy(a, w) - w(a[i].1) + w(p.1)
  {
    var n := |a| - 1;
    if i < n {
      SumByUpdate(a[..n], i, p, w);
      assert a[i := p][..n] == a[..n][i := p];
    } else {
      assert a[i := p][..n] == a[..n];
    }
  }

  /** Inserting trades the old value's weight (if any) for the new one's. */
  lemma SumByPut<K, V>(a: Assoc<K, V>, k: K, v: V, w: V -> int)
    ensures SumBy(Put(a, k, v), w)
         == SumBy(a, w) - (match Get(a, k) case Some(prev) => w(prev) case None => 0) + w(v)
  {
    match IndexOf(a, k) {
      case Some(i) => SumByUpdate(a, i, (k, v), w);
      case None => assert (a + [(k, v)])[..|a|] == a;
    }
  }

  /** `*map.entry(k).or_insert(0) += 1`. */
  function Increment<K(==)>(a: Assoc<K, nat>, k: K): (r: Assoc<K, nat>)
    ensures Get(r, k) == Some(Get(a, k).GetOr(0) + 1)
  {
    Put(a, k, Get(a, k).GetOr(0) + 1)
  }

  lemma IncrementIsPut<K>(a: Assoc<K, nat>, k: K, n: nat)
    requires n == Get(a, k).GetOr(0)
    ensures Increment(a, k) == Put<K, nat>(a, k, n + 1)
  {
  }

  /** Incrementing keeps keys distinct and adds one to the sum of the counts. */
  lemma IncrementSum<K>(a: Assoc<K, nat>, k: K)
    requires DistinctKeys(a)
    ensures DistinctKeys(Increment(a, k))
    ensures SumBy(Increment(a, k), Count) == SumBy(a, Count) + 1
  {
    var n := Get(a, k).GetOr(0);
    IncrementIsPut(a, k, n);
    PutCount(a, k, n);
  }

  /** Storing one more than a key's count keeps keys distinct and adds one to the sum. */
  lemma PutCount<K>(a: Assoc<K, nat>, k: K, n: nat)
    requires DistinctKeys(a) && n == Get(a, k).GetOr(0)
    ensures DistinctKeys(Put<K, nat>(a, k, n + 1))
    ensures SumBy(Put<K, nat>(a, k, n + 1), Count) == SumBy(a, Count) + 1
  {
    PutDistinct<K, nat>(a, k, n + 1);
    SumByPut<K, nat>(a, k, n + 1, Count);
    assert (match Get(a, k) case Some(prev) => Count(prev) case None => 0) == n;
  }

  /** Incrementing one key leaves every other key's count alone. */
  lemma IncrementOther<K>(a: Assoc<K, nat>, k: K, other: K)
    requires other != k
    ensures Get(Increment(a, k), other) == Get(a, other)
  {
    var n := Get(a, k).GetOr(0);
    IncrementIsPut(a, k, n);
    GetPutOther<K, nat>(a, k, n + 1, other);
  }

  function Count(n: nat): int { n }

  /** `Iterator::collect` into a map: a later pair overrides an earlier one with the same key. */
  function Collect<K(!new), V>(ps: seq<(K, V)>): (r: map<K, V>)
    ensures forall k :: k in r <==> exists i :: 0 <= i < |ps| && ps[i].0 == k
    ensures forall k :: k in r ==> exists i :: 0 <= i < |ps| && ps[i] == (k, r[k])
  {
    if ps == [] then map[]
    else
      var init := Collect(ps[..|ps| - 1]);
      assert forall i :: 0 <= i < |ps| - 1 ==> ps[..|ps| - 1][i] == ps[i];
      init[ps[|ps| - 1].0 := ps[|ps| - 1].1]
  }

  /** Inserting every pair of `b` into `a`, in `b`'s order. */
  function InsertAll<K(==), V>(a: Assoc<K, V>, b: Assoc<K, V>): Assoc<K, V> {
    if b == [] then a else Put(InsertAll(a, b[..|b| - 1]), b[|b| - 1].0, b[|b| - 1].1)
  }

  /** Without its last pair, a list with distinct keys still finds every other key. */
  lemma GetInit<K, V>(b: Assoc<K, V>, k: K)
    requires DistinctKeys(b) && b != [] && k != b[|b| - 1].0
    ensures Get(b[..|b| - 1], k) == Get(b, k)
  {
    var init := b[..|b| - 1];
    match Get(b, k) {
      case Some(v) =>
        var i :| 0 <= i < |b| && b[i] == (k, v);
        assert init[i] == b[i];
        GetListed(b, i);
        GetListed(init, i);
      case None =>
        assert forall i :: 0 <= i < |init| ==> init[i] == b[i];
        assert Keys(init) == Keys(b)[..|b| - 1];
    }
  }

  /** After inserting all of `b`, a key of `b` has `b`'s value and any other key keeps its value. */
  lemma {:induction false} GetInsertAll<K, V>(a: Assoc<K, V>, b: Assoc<K, V>, k: K)
    requires DistinctKeys(b)
    ensures Get(InsertAll(a, b), k) == if Get(b, k).Some? then Get(b, k) else Get(a, k)
  {
    if b != [] {
      var init := b[..|b| - 1];
      assert DistinctKeys(init);
      GetInsertAll(a, init, k);
      if k == b[|b| - 1].0 {
        GetListed(b, |b| - 1);
      } else {
        GetPutOther(InsertAll(a, init), b[|b| - 1].0, b[|b| - 1].1, k);
        GetInit(b, k);
      }
    }
  }

  /** Inserting keeps keys distinct. */
  lemma {:induction false} InsertAllDistinct<K, V>(a: Assoc<K, V>, b: Assoc<K, V>)
    requires DistinctKeys(a)
    ensures DistinctKeys(InsertAll(a, b))
  {
    if b != [] {
      InsertAllDistinct(a, b[..|b| - 1]);
      PutDistinct(InsertAll(a, b[..|b| - 1]), b[|b| - 1].0, b[|b| - 1].1);
    }
  }
}
