/** A JavaScript `Map` as an association list: entries are kept in the order
    their keys were first inserted, and writing an existing key replaces its
    value in place. */
module OrderedMap {
  import opened Wrappers
  import opened Seqs

  /** The keys of `m`, in iteration order. */
  function Keys<K, V>(m: seq<(K, V)>): seq<K> {
    seq(|m|, i requires 0 <= i < |m| => m[i].0)
  }

  /** The values of `m`, in iteration order (`Array.from(m.values())`). */
  function Values<K, V>(m: seq<(K, V)>): seq<V> {
    seq(|m|, i requires 0 <= i < |m| => m[i].1)
  }

  /** `m.get(k)`. */
  function Get<K(==), V>(m: seq<(K, V)>, k: K): Option<V> {
    if |m| == 0 then None
    else if m[0].0 == k then Some(m[0].1)
    else Get(m[1..], k)
  }

  /** `m.set(k, v)`: a new key goes to the end; an existing key keeps its
      position and gets the new value; no other key's value changes. */
  function Put<K(==,!new), V(!new)>(m: seq<(K, V)>, k: K, v: V): (r: seq<(K, V)>)
    ensures Keys(r) == if k in Keys(m) then Keys(m) else Keys(m) + [k]
    ensures Get(r, k) == Some(v)
    ensures forall k' :: k' != k ==> Get(r, k') == Get(m, k')
    ensures forall e :: e in r ==> e in m || e == (k, v)
  {
    if |m| == 0 then [(k, v)]
    else if m[0].0 == k then
      assert Keys(m)[0] == k;
      assert Keys([(k, v)] + m[1..]) == Keys(m);
      [(k, v)] + m[1..]
    else
      var rest := Put(m[1..], k, v);
      assert Keys(m) == [m[0].0] + Keys(m[1..]);
      assert Keys([m[0]] + rest) == [m[0].0] + Keys(rest);
      [m[0]] + rest
  }

  /** The map left by calling `set` for each pair of `kvs` in turn. */
  function PutAll<K(==,!new), V(!new)>(m: seq<(K, V)>, kvs: seq<(K, V)>): (r: seq<(K, V)>)
    ensures forall e :: e in r ==> e in m || e in kvs
  {
    if |kvs| == 0 then m
    else
      var last := kvs[|kvs| - 1];
      Put(PutAll(m, kvs[..|kvs| - 1]), last.0, last.1)
  }

  /** One more `set` call: the pairs written so far, then one more. */
  lemma PutAllSnoc<K(!new), V(!new)>(m: seq<(K, V)>, kvs: seq<(K, V)>, j: nat)
    requires j < |kvs|
    ensures PutAll(m, kvs[..j + 1]) == Put(PutAll(m, kvs[..j]), kvs[j].0, kvs[j].1)
  {
    assert kvs[..j + 1][..j] == kvs[..j];
  }

  /** The value of the last pair of `kvs` whose key is `k`. */
  function LastValue<K(==), V>(kvs: seq<(K, V)>, k: K): V
    requires k in Keys(kvs)
  {
    var last := kvs[|kvs| - 1];
    if last.0 == k then last.1
    else
      assert Keys(kvs) == Keys(kvs[..|kvs| - 1]) + [last.0];
      LastValue(kvs[..|kvs| - 1], k)
  }

  /** Writing `a` and then `b` is writing `a + b`. */
  lemma {:induction false} PutAllConcat<K(!new), V(!new)>(m: seq<(K, V)>, a: seq<(K, V)>, b: seq<(K, V)>)
    ensures PutAll(m, a + b) == PutAll(PutAll(m, a), b)
  {
    if |b| == 0 {
      assert a + b == a;
    } else {
      var front := b[..|b| - 1];
      assert (a + b)[..|a + b| - 1] == a + front;
      PutAllConcat(m, a, front);
    }
  }

  /** Last write wins: after writing `kvs`, a key they mention maps to the
      last value written for it; any other key keeps its old value. */
  lemma {:induction false} PutAllGet<K(!new), V(!new)>(m: seq<(K, V)>, kvs: seq<(K, V)>, k: K)
    ensures k in Keys(kvs) ==> Get(PutAll(m, kvs), k) == Some(LastValue(kvs, k))
    ensures k !in Keys(kvs) ==> Get(PutAll(m, kvs), k) == Get(m, k)
  {
    if |kvs| > 0 {
      var front := kvs[..|kvs| - 1];
      assert Keys(kvs) == Keys(front) + [kvs[|kvs| - 1].0];
      PutAllGet(m, front, k);
    }
  }

  /** Starting from an empty map, the keys come out once each, in the order
      of their first write. */
  lemma {:induction false} PutAllKeys<K(!new), V(!new)>(kvs: seq<(K, V)>)
    ensures Keys(PutAll([], kvs)) == Dedup(Keys(kvs))
  {
    if |kvs| > 0 {
      var front := kvs[..|kvs| - 1];
      assert Keys(kvs)[..|kvs| - 1] == Keys(front);
      PutAllKeys(front);
      var k := kvs[|kvs| - 1].0;
      var d := Dedup(Keys(front));
      assert k in d <==> k in Keys(front) by {
        if k in Keys(front) {
          var i :| 0 <= i < |Keys(front)| && Keys(front)[i] == k;
          assert Keys(front)[i] in d;
        }
      }
    }
  }

  /** In a map whose keys are distinct, `Get` finds each entry's own value. */
  lemma {:induction false} GetEntry<K, V>(m: seq<(K, V)>, i: nat)
    requires Distinct(Keys(m))
    requires i < |m|
    ensures Get(m, m[i].0) == Some(m[i].1)
  {
    if i > 0 {
      assert Keys(m[1..]) == Keys(m)[1..];
      assert m[0].0 != m[i].0 by { assert Keys(m)[0] != Keys(m)[i]; }
      GetEntry(m[1..], i - 1);
    }
  }

  /** The map built from `kvs` on an empty map: one entry per distinct key,
      in first-write order, each holding the last value written for it. */
  lemma PutAllFromEmpty<K(!new), V(!new)>(kvs: seq<(K, V)>)
    ensures Keys(PutAll([], kvs)) == Dedup(Keys(kvs))
    ensures Distinct(Keys(PutAll([], kvs)))
    ensures forall i :: 0 <= i < |PutAll([], kvs)| ==>
              PutAll([], kvs)[i].0 in Keys(kvs) && PutAll([], kvs)[i].1 == LastValue(kvs, PutAll([], kvs)[i].0)
  {
    var r := PutAll([], kvs);
    PutAllKeys(kvs);
    forall i | 0 <= i < |r|
      ensures r[i].0 in Keys(kvs) && r[i].1 == LastValue(kvs, r[i].0)
    {
      assert Keys(r)[i] == r[i].0;
      GetEntry(r, i);
      PutAllGet([], kvs, r[i].0);
    }
  }

  /** The last value written for `k` is one of the written pairs. */
  lemma {:induction false} LastValueWritten<K, V>(kvs: seq<(K, V)>, k: K)
    requires k in Keys(kvs)
    ensures (k, LastValue(kvs, k)) in kvs
  {
    var last := kvs[|kvs| - 1];
    if last.0 != k {
      var front := kvs[..|kvs| - 1];
      assert Keys(kvs) == Keys(front) + [last.0];
      LastValueWritten(front, k);
      assert forall e :: e in front ==> e in kvs;
    }
  }

  /** Writes in `b` that mention `k` override everything written before. */
  lemma {:induction false} LastValueConcat<K, V>(a: seq<(K, V)>, b: seq<(K, V)>, k: K)
    requires k in Keys(b)
    ensures k in Keys(a + b)
    ensures LastValue(a + b, k) == LastValue(b, k)
  {
    assert Keys(a + b) == Keys(a) + Keys(b);
    var last := b[|b| - 1];
    assert (a + b)[|a + b| - 1] == last;
    if last.0 != k {
      var front := b[..|b| - 1];
      assert Keys(b) == Keys(front) + [last.0];
      assert (a + b)[..|a + b| - 1] == a + front;
      LastValueConcat(a, front, k);
    }
  }
}
