/** A plain JavaScript object used as a dictionary of headers: a list of
    key/value pairs in insertion order, which is the order `for (k in o)`
    and `Object.keys(o)` visit them. Assigning `o[k] = v` overwrites an
    existing key where it stands and appends a new key at the end. */
module Dict {
  import opened Js

  type Dict<V> = seq<(string, V)>

  function Keys<V>(d: Dict<V>): (ks: seq<string>)
    ensures |ks| == |d|
    ensures forall i :: 0 <= i < |d| ==> ks[i] == d[i].0
  {
    if d == [] then [] else [d[0].0] + Keys(d[1..])
  }

  /** No key occurs twice, as in every JavaScript object. */
  predicate UniqueKeys<V>(d: Dict<V>)
  {
    forall i, j :: 0 <= i < j < |d| ==> d[i].0 != d[j].0
  }

  /** `o[k]`: the value stored under `k`, None for `undefined`. */
  function Get<V>(d: Dict<V>, k: string): (r: Option<V>)
    ensures r.None? <==> k !in Keys(d)
    ensures r.Some? ==> (k, r.value) in d
  {
    if d == [] then None
    else if d[0].0 == k then Some(d[0].1)
    else
      assert Keys(d) == [d[0].0] + Keys(d[1..]);
      Get(d[1..], k)
  }

  lemma GetAt<V>(d: Dict<V>, i: nat)
    requires UniqueKeys(d) && i < |d|
    ensures Get(d, d[i].0) == Some(d[i].1)
  {
    var r := Get(d, d[i].0);
    var j :| 0 <= j < |d| && d[j] == (d[i].0, r.value);
    assert i == j;
  }

  /** The keys of a list with one more pair in front. */
  lemma KeysCons<V>(kv: (string, V), t: Dict<V>)
    ensures Keys([kv] + t) == [kv.0] + Keys(t)
  {
    assert ([kv] + t)[1..] == t;
  }

  /** `o[k] = v`: the key keeps its place when present and is appended
      otherwise. */
  function Put<V>(d: Dict<V>, k: string, v: V): (r: Dict<V>)
    ensures k in Keys(d) ==> Keys(r) == Keys(d)
    ensures k !in Keys(d) ==> Keys(r) == Keys(d) + [k]
    ensures (k, v) in r
  {
    if d == [] then [(k, v)]
    else if d[0].0 == k then
      PutInFront(d, k, v);
      [(k, v)] + d[1..]
    else
      var t := Put(d[1..], k, v);
      PutBehind(d, k, v, t);
      [d[0]] + t
  }

  lemma PutInFront<V>(d: Dict<V>, k: string, v: V)
    requires d != [] && d[0].0 == k
    ensures Keys([(k, v)] + d[1..]) == Keys(d) && k in Keys(d)
  {
    KeysCons(d[0], d[1..]);
    KeysCons((k, v), d[1..]);
    assert d == [d[0]] + d[1..];
  }

  lemma PutBehind<V>(d: Dict<V>, k: string, v: V, t: Dict<V>)
    requires d != [] && d[0].0 != k
    requires k in Keys(d[1..]) ==> Keys(t) == Keys(d[1..])
    requires k !in Keys(d[1..]) ==> Keys(t) == Keys(d[1..]) + [k]
    ensures k in Keys(d) ==> Keys([d[0]] + t) == Keys(d)
    ensures k !in Keys(d) ==> Keys([d[0]] + t) == Keys(d) + [k]
  {
    var front, tail := [d[0].0], Keys(d[1..]);
    assert Keys(d) == front + tail by {
      KeysCons(d[0], d[1..]);
      assert d == [d[0]] + d[1..];
    }
    assert Keys([d[0]] + t) == front + Keys(t) by {
      KeysCons(d[0], t);
    }
    assert k in Keys(d) <==> k in tail;
    if k !in tail {
      assert front + (tail + [k]) == (front + tail) + [k];
    }
  }

  /** After `o[k] = v`, `o[k]` is `v` and every other key reads as before. */
  lemma {:induction false} PutGet<V>(d: Dict<V>, k: string, v: V, k': string)
    ensures Get(Put(d, k, v), k') == if k' == k then Some(v) else Get(d, k')
    decreases |d|
  {
    if d != [] {
      var r := Put(d, k, v);
      if d[0].0 == k {
        assert r[1..] == d[1..];
      } else {
        assert r[1..] == Put(d[1..], k, v);
        PutGet(d[1..], k, v, k');
      }
    }
  }

  /** `o[k] = v` keeps the keys distinct. */
  lemma PutUnique<V>(d: Dict<V>, k: string, v: V)
    requires UniqueKeys(d)
    ensures UniqueKeys(Put(d, k, v))
  {
    var r := Put(d, k, v);
    forall i | 0 <= i < |r| ensures r[i].0 == Keys(r)[i] {}
    forall i | 0 <= i < |d| ensures d[i].0 == Keys(d)[i] {}
  }

  /** Assigning the pairs of `kvs` one after the other, first to last. */
  function PutAll<V>(d: Dict<V>, kvs: Dict<V>): (r: Dict<V>)
    ensures Keys(d) <= Keys(r)
    ensures forall k :: k in Keys(r) <==> k in Keys(d) || k in Keys(kvs)
    decreases |kvs|
  {
    if kvs == [] then d
    else
      var d' := Put(d, kvs[0].0, kvs[0].1);
      assert Keys(kvs) == [kvs[0].0] + Keys(kvs[1..]);
      PutAll(d', kvs[1..])
  }

  /** One more assignment at the end. */
  lemma {:induction false} PutAllSnoc<V>(d: Dict<V>, kvs: Dict<V>, kv: (string, V))
    ensures PutAll(d, kvs + [kv]) == Put(PutAll(d, kvs), kv.0, kv.1)
    decreases |kvs|
  {
    if kvs == [] {
      assert kvs + [kv] == [kv];
    } else {
      assert (kvs + [kv])[1..] == kvs[1..] + [kv];
      PutAllSnoc(Put(d, kvs[0].0, kvs[0].1), kvs[1..], kv);
    }
  }

  /** After `PutAll`, a key holds its last value in `kvs`, or its old value
      when `kvs` does not mention it. */
  lemma PutAllGet<V>(d: Dict<V>, kvs: Dict<V>, k: string)
    ensures UniqueKeys(d) ==> UniqueKeys(PutAll(d, kvs))
    ensures k !in Keys(kvs) ==> Get(PutAll(d, kvs), k) == Get(d, k)
    ensures UniqueKeys(kvs) && k in Keys(kvs) ==> Get(PutAll(d, kvs), k) == Get(kvs, k)
  {
    if UniqueKeys(d) { PutAllUnique(d, kvs); }
    if k !in Keys(kvs) { PutAllUntouched(d, kvs, k); }
    if UniqueKeys(kvs) && k in Keys(kvs) { PutAllAssigned(d, kvs, k); }
  }

  lemma {:induction false} PutAllUnique<V>(d: Dict<V>, kvs: Dict<V>)
    requires UniqueKeys(d)
    ensures UniqueKeys(PutAll(d, kvs))
    decreases |kvs|
  {
    if kvs != [] {
      PutUnique(d, kvs[0].0, kvs[0].1);
      PutAllUnique(Put(d, kvs[0].0, kvs[0].1), kvs[1..]);
    }
  }

  lemma {:induction false} PutAllUntouched<V>(d: Dict<V>, kvs: Dict<V>, k: string)
    requires k !in Keys(kvs)
    ensures Get(PutAll(d, kvs), k) == Get(d, k)
    decreases |kvs|
  {
    if kvs != [] {
      assert Keys(kvs) == [kvs[0].0] + Keys(kvs[1..]);
      PutGet(d, kvs[0].0, kvs[0].1, k);
      PutAllUntouched(Put(d, kvs[0].0, kvs[0].1), kvs[1..], k);
    }
  }

  lemma {:induction false} PutAllAssigned<V>(d: Dict<V>, kvs: Dict<V>, k: string)
    requires UniqueKeys(kvs) && k in Keys(kvs)
    ensures Get(PutAll(d, kvs), k) == Get(kvs, k)
    decreases |kvs|
  {
    var d' := Put(d, kvs[0].0, kvs[0].1);
    assert Keys(kvs) == [kvs[0].0] + Keys(kvs[1..]);
    if k == kvs[0].0 {
      assert k !in Keys(kvs[1..]);
      PutGet(d, kvs[0].0, kvs[0].1, k);
      PutAllUntouched(d', kvs[1..], k);
    } else {
      assert UniqueKeys(kvs[1..]);
      PutAllAssigned(d', kvs[1..], k);
    }
  }

  /** Assigning distinct new keys into an object that lacks all of them
      appends them in order. */
  lemma {:induction false} PutAllFresh<V>(d: Dict<V>, kvs: Dict<V>)
    requires UniqueKeys(kvs)
    requires forall i :: 0 <= i < |kvs| ==> kvs[i].0 !in Keys(d)
    ensures PutAll(d, kvs) == d + kvs
    decreases |kvs|
  {
    if kvs != [] {
      var d' := d + [kvs[0]];
      PutFresh(d, kvs[0].0, kvs[0].1);
      KeysAppend(d, kvs[0]);
      assert forall i :: 0 <= i < |kvs[1..]| ==> kvs[1..][i].0 !in Keys(d') by {
        forall i | 0 <= i < |kvs[1..]| ensures kvs[1..][i].0 !in Keys(d') {
          assert kvs[1..][i].0 == kvs[i + 1].0 != kvs[0].0;
        }
      }
      assert UniqueKeys(kvs[1..]) by {
        forall i, j | 0 <= i < j < |kvs[1..]| ensures kvs[1..][i].0 != kvs[1..][j].0 {
          assert kvs[1..][i] == kvs[i + 1] && kvs[1..][j] == kvs[j + 1];
        }
      }
      PutAllFresh(d', kvs[1..]);
      assert PutAll(d, kvs) == PutAll(d', kvs[1..]);
      ConsAppend(d, kvs);
    }
  }

  lemma ConsAppend<T>(d: seq<T>, s: seq<T>)
    requires s != []
    ensures d + [s[0]] + s[1..] == d + s
  {
    assert [s[0]] + s[1..] == s;
  }

  lemma {:induction false} KeysAppend<V>(d: Dict<V>, kv: (string, V))
    ensures Keys(d + [kv]) == Keys(d) + [kv.0]
    decreases |d|
  {
    if d != [] {
      assert (d + [kv])[1..] == d[1..] + [kv];
      KeysAppend(d[1..], kv);
    }
  }

  lemma {:induction false} PutFresh<V>(d: Dict<V>, k: string, v: V)
    requires k !in Keys(d)
    ensures Put(d, k, v) == d + [(k, v)]
    decreases |d|
  {
    if d != [] {
      assert k !in Keys(d[1..]) && d[0].0 != k by {
        KeysCons(d[0], d[1..]);
        assert d == [d[0]] + d[1..];
      }
      PutFresh(d[1..], k, v);
      ConsSnoc(d, (k, v));
    }
  }

  lemma ConsSnoc<T>(s: seq<T>, x: T)
    requires s != []
    ensures [s[0]] + (s[1..] + [x]) == s + [x]
  {
  }

  /** The pairs in the opposite order. */
  function Reversed<V>(d: Dict<V>): (r: Dict<V>)
    ensures |r| == |d|
    ensures forall i :: 0 <= i < |d| ==> r[i] == d[|d| - 1 - i]
  {
    if d == [] then [] else Reversed(d[1..]) + [d[0]]
  }

  lemma ReversedKeys<V>(d: Dict<V>)
    ensures forall k :: k in Keys(Reversed(d)) <==> k in Keys(d)
    ensures UniqueKeys(d) ==> UniqueKeys(Reversed(d))
    ensures UniqueKeys(d) ==> forall k :: Get(Reversed(d), k) == Get(d, k)
  {
    var r := Reversed(d);
    forall k | k in Keys(d) ensures k in Keys(r) {
      var i :| 0 <= i < |d| && d[i].0 == k;
      assert r[|d| - 1 - i].0 == k;
    }
    forall k | k in Keys(r) ensures k in Keys(d) {
      var i :| 0 <= i < |r| && r[i].0 == k;
      assert d[|d| - 1 - i].0 == k;
    }
    if UniqueKeys(d) {
      assert UniqueKeys(r) by {
        forall i, j | 0 <= i < j < |r| ensures r[i].0 != r[j].0 {
          assert r[i] == d[|d| - 1 - i] && r[j] == d[|d| - 1 - j];
        }
      }
      forall k ensures Get(r, k) == Get(d, k) {
        if k in Keys(d) {
          var i :| 0 <= i < |d| && d[i].0 == k;
          GetAt(d, i);
          assert r[|d| - 1 - i] == d[i];
          GetAt(r, |d| - 1 - i);
        }
      }
    }
  }
}
