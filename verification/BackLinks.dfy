/** Two-way links between the positions of a vector and the keys stored there, as
    kept by the sum tree (`key_to_index_`) and by the intrusive heap. */
module BackLinks {

  import opened Status

  /** The parent of a node in a binary tree that is stored level by level. */
  function Parent(i: nat): nat
    requires i > 0
  {
    (i - 1) / 2
  }

  ghost predicate SlotHolds(keys: seq<Key>, m: map<Key, nat>, k: Key)
    requires k in m
  {
    m[k] < |keys| && keys[m[k]] == k
  }

  /** Keys and indices are a bijection onto `0..n-1`. */
  ghost predicate Linked(keys: seq<Key>, m: map<Key, nat>, n: nat)
  {
    && n <= |keys|
    && (forall k :: k in m ==> m[k] < n)
    && (forall k {:trigger SlotHolds(keys, m, k)} :: k in m ==> SlotHolds(keys, m, k))
    && (forall i :: 0 <= i < n ==> keys[i] in m && m[keys[i]] == i)
  }

  lemma AppendLinks(keys: seq<Key>, m: map<Key, nat>, n: nat, key: Key)
    requires Linked(keys, m, n) && key !in m && n < |keys|
    ensures Linked(keys[n := key], m[key := n], n + 1)
  {
    var keys', m' := keys[n := key], m[key := n];
    forall k | k in m'
      ensures SlotHolds(keys', m', k)
    {
      assert k != key ==> SlotHolds(keys, m, k);
    }
  }

  lemma PaddingLinks(keys: seq<Key>, m: map<Key, nat>, n: nat, more: seq<Key>)
    requires Linked(keys, m, n)
    ensures Linked(keys + more, m, n)
  {
    var keys' := keys + more;
    forall k | k in m
      ensures SlotHolds(keys', m, k)
    {
      assert SlotHolds(keys, m, k);
    }
  }

  /** The links after the last key took over the slot of `key`. */
  function SwapOut(keys: seq<Key>, m: map<Key, nat>, last: nat, key: Key): map<Key, nat>
    requires last < |keys| && key in m
  {
    m[keys[last] := m[key]] - {key}
  }

  lemma SwapOutLinks(keys: seq<Key>, m: map<Key, nat>, last: nat, key: Key)
    requires Linked(keys, m, last + 1) && key in m
    ensures Linked(keys[m[key] := keys[last]], SwapOut(keys, m, last, key), last)
    ensures |SwapOut(keys, m, last, key)| == |m| - 1
  {
    var keys', m' := keys[m[key] := keys[last]], SwapOut(keys, m, last, key);
    assert m'.Keys == m.Keys - {key};
    assert SlotHolds(keys, m, key);
    forall k | k in m'
      ensures SlotHolds(keys', m', k)
    {
      assert SlotHolds(keys, m, k);
    }
  }

  /** Exchanging two slots together with their links. */
  lemma ExchangeLinks(keys: seq<Key>, m: map<Key, nat>, i: nat, j: nat)
    requires Linked(keys, m, |keys|) && i < |keys| && j < |keys| && i != j
    ensures Linked(keys[i := keys[j]][j := keys[i]], m[keys[j] := i][keys[i] := j], |keys|)
    ensures m[keys[j] := i][keys[i] := j].Keys == m.Keys
  {
    var keys', m' := keys[i := keys[j]][j := keys[i]], m[keys[j] := i][keys[i] := j];
    assert m'.Keys == m.Keys;
    forall k | k in m'
      ensures SlotHolds(keys', m', k)
    {
      assert SlotHolds(keys, m, k);
    }
  }
}
