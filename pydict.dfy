/**
 * Python's `dict` as the modelled code uses it: entries kept in insertion
 * order, each key at most once; assigning to a present key keeps its place,
 * assigning to a new key appends it.
 */
module PyDict {
  import opened Wrappers

  type Dict<K, V> = seq<(K, V)>

  /** `list(d)`: the keys in insertion order. */
  function Keys<K, V>(d: Dict<K, V>): (r: seq<K>)
    ensures |r| == |d| && forall i :: 0 <= i < |d| ==> r[i] == d[i].0
    decreases |d|
  {
    if d == [] then [] else [d[0].0] + Keys(d[1..])
  }

  predicate DistinctKeys<K(==), V>(d: Dict<K, V>) {
    forall i, j :: 0 <= i < j < |d| ==> d[i].0 != d[j].0
  }

  /** `k in d` */
  predicate HasKey<K(==), V>(d: Dict<K, V>, k: K) {
    k in Keys(d)
  }

  /** `d.get(k)` */
  function Get<K(==), V>(d: Dict<K, V>, k: K): (r: Option<V>)
    ensures r.Some? <==> HasKey(d, k)
    ensures DistinctKeys(d) ==> forall i :: 0 <= i < |d| && d[i].0 == k ==> r == Some(d[i].1)
    decreases |d|
  {
    if d == [] then None
    else if d[0].0 == k then Some(d[0].1)
    else Get(d[1..], k)
  }

  /** `d[k] = v` */
  function Put<K(==), V>(d: Dict<K, V>, k: K, v: V): (r: Dict<K, V>)
    ensures !HasKey(d, k) ==> r == d + [(k, v)]
    decreases |d|
  {
    if d == [] then [(k, v)]
    else if d[0].0 == k then [(k, v)] + d[1..]
    else [d[0]] + Put(d[1..], k, v)
  }

  /** After `d[k] = v`, `d[k]` is `v` and every other key reads as before. */
  lemma {:induction false} PutGet<K, V>(d: Dict<K, V>, k: K, v: V, k': K)
    ensures Get(Put(d, k, v), k') == if k' == k then Some(v) else Get(d, k')
    decreases |d|
  {
    if d != [] && d[0].0 != k {
      PutGet(d[1..], k, v, k');
    }
  }

  /** `d[k] = v` keeps the key order, appending `k` when it is new. */
  lemma {:induction false} PutKeys<K, V>(d: Dict<K, V>, k: K, v: V)
    ensures Keys(Put(d, k, v)) == if HasKey(d, k) then Keys(d) else Keys(d) + [k]
    decreases |d|
  {
    if d != [] && d[0].0 != k {
      PutKeys(d[1..], k, v);
      assert Keys(d) == [d[0].0] + Keys(d[1..]);
      assert Keys(Put(d, k, v)) == [d[0].0] + Keys(Put(d[1..], k, v));
    } else if d != [] {
      assert Keys(Put(d, k, v)) == Keys(d);
    }
  }

  /** Assigning the same value to the same key twice is assigning it once. */
  lemma {:induction false} PutTwice<K, V>(d: Dict<K, V>, k: K, v: V)
    ensures Put(Put(d, k, v), k, v) == Put(d, k, v)
    decreases |d|
  {
    if d != [] && d[0].0 != k {
      PutTwice(d[1..], k, v);
      assert Put(d, k, v)[1..] == Put(d[1..], k, v);
    }
  }

  /** What `d.get(k)` finds is an entry of `d`. */
  lemma {:induction false} GetIn<K, V>(d: Dict<K, V>, k: K)
    requires HasKey(d, k)
    ensures (k, Get(d, k).value) in d
    decreases |d|
  {
    if d[0].0 != k {
      assert HasKey(d[1..], k) by {
        assert Keys(d) == [d[0].0] + Keys(d[1..]);
      }
      GetIn(d[1..], k);
    }
  }

  /** `d[k] = v` keeps the keys distinct. */
  lemma PutDistinct<K, V>(d: Dict<K, V>, k: K, v: V)
    requires DistinctKeys(d)
    ensures DistinctKeys(Put(d, k, v))
  {
    PutKeys(d, k, v);
    var r := Put(d, k, v);
    assert forall i :: 0 <= i < |r| ==> r[i].0 == Keys(r)[i];
  }

  /** Assigning the pairs of `asg` one after the other, starting from `d`. */
  function PutAll<K(==), V>(d: Dict<K, V>, asg: seq<(K, V)>): Dict<K, V>
    decreases |asg|
  {
    if asg == [] then d
    else Put(PutAll(d, asg[..|asg| - 1]), asg[|asg| - 1].0, asg[|asg| - 1].1)
  }

  /** One more assignment at the end is one more `Put`. */
  lemma PutAllSnoc<K, V>(d: Dict<K, V>, asg: seq<(K, V)>, k: K, v: V)
    ensures PutAll(d, asg + [(k, v)]) == Put(PutAll(d, asg), k, v)
  {
    assert (asg + [(k, v)])[..|asg|] == asg;
  }

  /** The key `k` is assigned at position `j` and not after it. */
  predicate LastAssigned<K(==), V>(asg: seq<(K, V)>, j: nat, k: K)
    requires j < |asg|
  {
    asg[j].0 == k && forall j' :: j < j' < |asg| ==> asg[j'].0 != k
  }

  /** Assigning `a + b` is assigning `a`, then `b`. */
  lemma {:induction false} PutAllAppend<K, V>(d: Dict<K, V>, a: seq<(K, V)>, b: seq<(K, V)>)
    ensures PutAll(d, a + b) == PutAll(PutAll(d, a), b)
    decreases |b|
  {
    if b == [] {
      assert a + b == a;
    } else {
      var n := |b| - 1;
      assert a + b == (a + b[..n]) + [b[n]];
      PutAllAppend(d, a, b[..n]);
      PutAllSnoc(d, a + b[..n], b[n].0, b[n].1);
    }
  }

  lemma {:induction false} PutAllHasKey<K, V>(d: Dict<K, V>, asg: seq<(K, V)>, k: K)
    ensures HasKey(PutAll(d, asg), k) <==> HasKey(d, k) || k in Keys(asg)
    decreases |asg|
  {
    if asg != [] {
      var n := |asg| - 1;
      var pre := asg[..n];
      PutAllHasKey(d, pre, k);
      PutKeys(PutAll(d, pre), asg[n].0, asg[n].1);
      assert Keys(asg) == Keys(pre) + [asg[n].0];
    }
  }

  /** A key that no assignment touches keeps its value. */
  lemma {:induction false} PutAllUntouched<K, V>(d: Dict<K, V>, asg: seq<(K, V)>, k: K)
    requires k !in Keys(asg)
    ensures Get(PutAll(d, asg), k) == Get(d, k)
    decreases |asg|
  {
    if asg != [] {
      var n := |asg| - 1;
      var pre := asg[..n];
      assert Keys(asg) == Keys(pre) + [asg[n].0];
      PutAllUntouched(d, pre, k);
      PutGet(PutAll(d, pre), asg[n].0, asg[n].1, k);
    }
  }

  /** Each assigned key holds the value assigned to it last. */
  lemma {:induction false} PutAllLastWins<K, V>(d: Dict<K, V>, asg: seq<(K, V)>, j: nat, k: K)
    requires j < |asg| && LastAssigned(asg, j, k)
    ensures Get(PutAll(d, asg), k) == Some(asg[j].1)
    decreases |asg|
  {
    var n := |asg| - 1;
    var pre := asg[..n];
    PutGet(PutAll(d, pre), asg[n].0, asg[n].1, k);
    if j < n {
      assert pre[j] == asg[j];
      assert LastAssigned(pre, j, k);
      PutAllLastWins(d, pre, j, k);
    }
  }

  /** Assignments keep the keys distinct. */
  lemma {:induction false} PutAllDistinct<K, V>(d: Dict<K, V>, asg: seq<(K, V)>)
    requires DistinctKeys(d)
    ensures DistinctKeys(PutAll(d, asg))
    decreases |asg|
  {
    if asg != [] {
      var n := |asg| - 1;
      PutAllDistinct(d, asg[..n]);
      PutDistinct(PutAll(d, asg[..n]), asg[n].0, asg[n].1);
    }
  }

  /** Every entry after a run of assignments was in the start dict or was assigned. */
  lemma {:induction false} PutAllFrom<K, V>(d: Dict<K, V>, asg: seq<(K, V)>)
    ensures forall e :: e in PutAll(d, asg) ==> e in d || e in asg
    decreases |asg|
  {
    if asg != [] {
      var n := |asg| - 1;
      PutAllFrom(d, asg[..n]);
      PutFrom(PutAll(d, asg[..n]), asg[n].0, asg[n].1);
    }
  }

  /** Every entry after `d[k] = v` was in `d` or is `(k, v)`. */
  lemma {:induction false} PutFrom<K, V>(d: Dict<K, V>, k: K, v: V)
    ensures forall e :: e in Put(d, k, v) ==> e in d || e == (k, v)
    decreases |d|
  {
    if d != [] && d[0].0 != k {
      PutFrom(d[1..], k, v);
    }
  }
}
