/**
 The JavaScript `Map` that holds the scheduler's registry: key/value pairs kept in
 insertion order. `set` on a present key overwrites the value in place and keeps its
 position, `set` on a new key appends, and `delete` removes the key. Iteration
 (`forEach`) follows the sequence order.
 */
module OrderedMap {
  import opened Wrappers

  type OMap<K, V> = seq<(K, V)>

  /** The keys present in `m`. */
  function Keys<K, V>(m: OMap<K, V>): set<K>
  {
    if |m| == 0 then {} else {m[0].0} + Keys(m[1..])
  }

  /** No key occurs twice. */
  predicate Distinct<K(==), V>(m: OMap<K, V>)
  {
    |m| == 0 || (m[0].0 !in Keys(m[1..]) && Distinct(m[1..]))
  }

  /** `m.get(k)`: the value stored under `k`, if any. */
  function Get<K(==), V>(m: OMap<K, V>, k: K): (r: Option<V>)
    ensures r.Some? <==> k in Keys(m)
    ensures r.Some? ==> (k, r.value) in m
  {
    if |m| == 0 then None
    else if m[0].0 == k then Some(m[0].1)
    else Get(m[1..], k)
  }

  /** `m.set(k, v)`. */
  function Set<K(==,!new), V>(m: OMap<K, V>, k: K, v: V): (r: OMap<K, V>)
    ensures Get(r, k) == Some(v)
    ensures forall k' :: k' != k ==> Get(r, k') == Get(m, k')
    ensures Keys(r) == Keys(m) + {k}
    ensures forall p :: p in r ==> p == (k, v) || p in m
    ensures k in Keys(m) ==> |r| == |m| && forall i :: 0 <= i < |m| ==> r[i].0 == m[i].0
    ensures k !in Keys(m) ==> r == m + [(k, v)]
    ensures Distinct(m) ==> Distinct(r)
  {
    if |m| == 0 then [(k, v)]
    else if m[0].0 == k then [(k, v)] + m[1..]
    else [m[0]] + Set(m[1..], k, v)
  }

  /** The position of key `k`: the first pair with that key, or `|m|` when there is none. */
  function Position<K(==), V>(m: OMap<K, V>, k: K): (i: nat)
    ensures i <= |m|
    ensures i < |m| <==> k in Keys(m)
    ensures i < |m| ==> m[i].0 == k
    ensures forall j :: 0 <= j < i ==> m[j].0 != k
  {
    if |m| == 0 then 0
    else if m[0].0 == k then 0
    else 1 + Position(m[1..], k)
  }

  /** `m.delete(k)`: the pair under `k` is taken out and the others keep their order. */
  function Delete<K(==,!new), V>(m: OMap<K, V>, k: K): (r: OMap<K, V>)
    ensures Get(r, k) == None
    ensures forall k' :: k' != k ==> Get(r, k') == Get(m, k')
    ensures Keys(r) == Keys(m) - {k}
    ensures forall p :: p in r ==> p in m
    ensures Distinct(m) ==> Distinct(r)
    ensures k !in Keys(m) ==> r == m
    ensures Distinct(m) && k in Keys(m) ==> r == m[..Position(m, k)] + m[Position(m, k) + 1..]
  {
    if |m| == 0 then []
    else
      var rest := Delete(m[1..], k);
      if m[0].0 == k then
        rest
      else
        var r := [m[0]] + rest;
        assert r[1..] == rest;
        assert [m[0]] + m[1..] == m;
        if Distinct(m) && k in Keys(m) then
          DeleteShift(m, rest, Position(m[1..], k));
          r
        else r
  }

  /** Putting the head back in front of a sequence with one later pair taken out. */
  lemma DeleteShift<K, V>(m: OMap<K, V>, rest: OMap<K, V>, j: int)
    requires 0 <= j < |m| - 1
    requires rest == m[1..][..j] + m[1..][j + 1..]
    ensures [m[0]] + rest == m[..j + 1] + m[j + 2..]
  {
    assert m[..j + 1] == [m[0]] + m[1..][..j];
    assert m[j + 2..] == m[1..][j + 1..];
  }

  /** Setting a key to the value it already holds leaves the map identical,
      position included. */
  lemma {:induction false} SetPresent<K(!new), V>(m: OMap<K, V>, k: K, v: V)
    requires Get(m, k) == Some(v)
    ensures Set(m, k, v) == m
  {
    if m[0].0 != k {
      SetPresent(m[1..], k, v);
    }
  }

  /** `set` is idempotent. */
  lemma SetTwice<K(!new), V>(m: OMap<K, V>, k: K, v: V)
    ensures Set(Set(m, k, v), k, v) == Set(m, k, v)
  {
    SetPresent(Set(m, k, v), k, v);
  }

  /** In a duplicate-free map every stored pair is what lookup finds. */
  lemma {:induction false} GetMember<K(!new), V>(m: OMap<K, V>, p: (K, V))
    requires Distinct(m) && p in m
    ensures Get(m, p.0) == Some(p.1)
  {
    if m[0] != p {
      assert p in m[1..];
      GetMember(m[1..], p);
    }
  }
}
