/** Item selectors as the table sees them: an ordered list of keys for FIFO and
    LIFO, and a map from key to priority for the uniform, prioritized and heap
    selectors, which may hand out any of their keys. */
module Selector {

  import opened Status

  datatype Selector =
    | Fifo(keys: seq<Key>)
    | Lifo(keys: seq<Key>)
    | Ranked(priorities: map<Key, real>)
  {
    function Keys(): set<Key> {
      if Ranked? then priorities.Keys else KeySet(keys)
    }

    /** FIFO and LIFO lists never hold a key twice. */
    ghost predicate Valid() {
      !Ranked? ==> |keys| == |Keys()|
    }

    /** Whether a call of Sample may return `k`. */
    predicate MaySample(k: Key) {
      if Ranked? then k in priorities else keys != [] && k == keys[0]
    }

    function Insert(k: Key, priority: real): Selector
      requires k !in Keys()
    {
      match this
      case Fifo(keys) => Fifo(keys + [k])
      case Lifo(keys) => Lifo([k] + keys)
      case Ranked(ps) => Ranked(ps[k := priority])
    }

    /** FIFO and LIFO ignore the new priority. */
    function Update(k: Key, priority: real): Selector
      requires k in Keys()
    {
      if Ranked? then Ranked(priorities[k := priority]) else this
    }

    function Delete(k: Key): Selector
      requires k in Keys()
    {
      match this
      case Fifo(keys) => Fifo(Without(keys, k))
      case Lifo(keys) => Lifo(Without(keys, k))
      case Ranked(ps) => Ranked(ps - {k})
    }

    function Clear(): Selector {
      match this
      case Fifo(_) => Fifo([])
      case Lifo(_) => Lifo([])
      case Ranked(_) => Ranked(map[])
    }
  }

  /** Erases the first (and only) occurrence of `k` from the list. */
  function Without(keys: seq<Key>, k: Key): seq<Key> {
    if keys == [] then []
    else if keys[0] == k then keys[1..]
    else [keys[0]] + Without(keys[1..], k)
  }

  ghost predicate Distinct(keys: seq<Key>) {
    forall i, j :: 0 <= i < j < |keys| ==> keys[i] != keys[j]
  }

  function KeySet(keys: seq<Key>): set<Key> {
    set k | k in keys
  }

  lemma ConsKeys(k: Key, rest: seq<Key>)
    ensures KeySet([k] + rest) == {k} + KeySet(rest)
    ensures Distinct([k] + rest) <==> Distinct(rest) && k !in rest
  {
    var keys := [k] + rest;
    assert forall i :: 0 <= i < |rest| ==> keys[i + 1] == rest[i];
    if k in rest {
      var j :| 0 <= j < |rest| && rest[j] == k;
      assert keys[j + 1] == keys[0];
    }
    if Distinct(keys) {
      forall i, j | 0 <= i < j < |rest| ensures rest[i] != rest[j] {
        assert keys[i + 1] != keys[j + 1];
      }
    }
  }

  /** A list without repetition is as long as its set of elements. */
  lemma {:induction false} DistinctIffCount(keys: seq<Key>)
    ensures |KeySet(keys)| <= |keys|
    ensures Distinct(keys) <==> |KeySet(keys)| == |keys|
  {
    if keys != [] {
      var rest := keys[1..];
      DistinctIffCount(rest);
      assert keys == [keys[0]] + rest;
      ConsKeys(keys[0], rest);
      if keys[0] in rest {
        assert KeySet(keys) == KeySet(rest);
      }
    }
  }

  lemma HeadOccursOnce(keys: seq<Key>)
    requires keys != [] && |KeySet(keys)| == |keys|
    ensures KeySet(keys) == {keys[0]} + KeySet(keys[1..])
    ensures keys[0] !in keys[1..] && |KeySet(keys[1..])| == |keys[1..]|
  {
    assert keys == [keys[0]] + keys[1..];
    DistinctIffCount(keys[1..]);
  }

  lemma {:induction false} WithoutKeys(keys: seq<Key>, k: Key)
    requires k in keys && |KeySet(keys)| == |keys|
    ensures KeySet(Without(keys, k)) == KeySet(keys) - {k}
    ensures |Without(keys, k)| == |keys| - 1
  {
    HeadOccursOnce(keys);
    if keys[0] != k {
      WithoutKeys(keys[1..], k);
      var rest := Without(keys[1..], k);
      assert KeySet([keys[0]] + rest) == {keys[0]} + KeySet(rest);
    }
  }

  /** The list without the given keys, the others in their order. */
  function Left(keys: seq<Key>, gone: set<Key>): seq<Key> {
    if keys == [] then []
    else if keys[0] in gone then Left(keys[1..], gone)
    else [keys[0]] + Left(keys[1..], gone)
  }

  lemma {:induction false} LeftAll(keys: seq<Key>, gone: set<Key>)
    requires forall k :: k in keys ==> k !in gone
    ensures Left(keys, gone) == keys
  {
    if keys != [] {
      LeftAll(keys[1..], gone);
    }
  }

  lemma {:induction false} LeftTwice(keys: seq<Key>, a: set<Key>, b: set<Key>)
    ensures Left(Left(keys, a), b) == Left(keys, a + b)
  {
    if keys != [] {
      LeftTwice(keys[1..], a, b);
      if keys[0] !in a {
        assert ([keys[0]] + Left(keys[1..], a))[1..] == Left(keys[1..], a);
      }
    }
  }

  lemma {:induction false} WithoutIsLeft(keys: seq<Key>, k: Key)
    requires |KeySet(keys)| == |keys|
    ensures k in keys ==> Without(keys, k) == Left(keys, {k})
  {
    if keys != [] {
      HeadOccursOnce(keys);
      if keys[0] == k {
        LeftAll(keys[1..], {k});
      } else {
        WithoutIsLeft(keys[1..], k);
      }
    }
  }

  /** The selector has lost the given keys and nothing else, and the order of a list is
      as it was. */
  ghost predicate Loses(s: Selector, gone: set<Key>, s': Selector) {
    match s
    case Fifo(keys) => s' == Fifo(Left(keys, gone))
    case Lifo(keys) => s' == Lifo(Left(keys, gone))
    case Ranked(ps) =>
      && s'.Ranked?
      && (forall k :: k in s'.priorities <==> k in ps && k !in gone)
      && (forall k :: k in s'.priorities ==> s'.priorities[k] == ps[k])
  }

  lemma DeleteLoses(s: Selector, k: Key)
    requires s.Valid() && k in s.Keys()
    ensures Loses(s, {k}, s.Delete(k))
  {
    if !s.Ranked? {
      WithoutIsLeft(s.keys, k);
    }
  }

  lemma LosesNothing(s: Selector, gone: set<Key>)
    requires gone !! s.Keys()
    ensures Loses(s, gone, s)
  {
    if !s.Ranked? {
      LeftAll(s.keys, gone);
    }
  }

  lemma LosesMore(a: Selector, x: set<Key>, b: Selector, y: set<Key>, c: Selector)
    requires Loses(a, x, b) && Loses(b, y, c)
    ensures Loses(a, x + y, c)
  {
    if !a.Ranked? {
      LeftTwice(a.keys, x, y);
    }
  }

  /** A ranked selector knows the new priority of the key; nothing else changes, and a
      list does not change at all. */
  ghost predicate Reranks(s: Selector, k: Key, priority: real, s': Selector) {
    if s.Ranked? then
      && s'.Ranked? && s'.priorities.Keys == s.priorities.Keys
      && forall j :: j in s.priorities ==> s'.priorities[j] == if j == k then priority else s.priorities[j]
    else s' == s
  }

  /** The key is new, at the end of a FIFO, at the front of a LIFO, or ranked; and then
      some keys are gone. */
  ghost predicate GainsAndLoses(s: Selector, k: Key, priority: real, gone: set<Key>, s': Selector) {
    match s
    case Fifo(keys) => s' == Fifo(Left(keys + [k], gone))
    case Lifo(keys) => s' == Lifo(Left([k] + keys, gone))
    case Ranked(ps) =>
      && s'.Ranked?
      && (forall j :: j in s'.priorities <==> (j in ps || j == k) && j !in gone)
      && forall j :: j in s'.priorities ==> s'.priorities[j] == if j == k then priority else ps[j]
  }

  lemma InsertGains(s: Selector, k: Key, priority: real, gone: set<Key>, s': Selector)
    requires k !in s.Keys() && Loses(s.Insert(k, priority), gone, s')
    ensures GainsAndLoses(s, k, priority, gone, s')
  {
  }

  /** An empty selector of the same kind. */
  ghost predicate Emptied(s: Selector, s': Selector) {
    s'.Keys() == {} && (s'.Fifo? <==> s.Fifo?) && (s'.Lifo? <==> s.Lifo?) && (!s'.Ranked? ==> s'.keys == [])
  }

  lemma InsertKeys(s: Selector, k: Key, priority: real)
    requires s.Valid() && k !in s.Keys()
    ensures s.Insert(k, priority).Valid()
    ensures s.Insert(k, priority).Keys() == s.Keys() + {k}
  {
    var t := s.Insert(k, priority);
    assert t.Keys() == s.Keys() + {k};
  }

  lemma UpdateKeys(s: Selector, k: Key, priority: real)
    requires s.Valid() && k in s.Keys()
    ensures s.Update(k, priority).Valid()
    ensures s.Update(k, priority).Keys() == s.Keys()
  {
  }

  lemma DeleteKeys(s: Selector, k: Key)
    requires s.Valid() && k in s.Keys()
    ensures s.Delete(k).Valid()
    ensures s.Delete(k).Keys() == s.Keys() - {k}
  {
    if !s.Ranked? {
      WithoutKeys(s.keys, k);
      assert s.Keys() == KeySet(s.keys);
    }
  }

  /** A selector that is not empty has something to offer. */
  lemma SampleExists(s: Selector) returns (k: Key)
    requires s.Keys() != {}
    ensures s.MaySample(k) && k in s.Keys()
  {
    if s.Ranked? {
      k :| k in s.priorities;
    } else {
      var x :| x in s.Keys();
      k := s.keys[0];
    }
  }
}

/** `FifoSelector` and `LifoSelector`: a list of keys with an index of the keys in
    it. They differ only in the end at which a key is inserted. */
module ListSelector {

  import opened Status
  import opened Selector

  class ListSelector {
    const fifo: bool
    var keys: seq<Key>
    var index: set<Key>

    ghost predicate Valid()
      reads this
    {
      index == KeySet(keys) && Value().Valid()
    }

    /** The selector as the table sees it. */
    ghost function Value(): Selector
      reads this
    {
      if fifo then Fifo(keys) else Lifo(keys)
    }

    constructor (fifo: bool)
      ensures Valid() && Value() == if fifo then Fifo([]) else Lifo([])
    {
      this.fifo, keys, index := fifo, [], {};
    }

    method Insert(key: Key, priority: real) returns (status: Status)
      requires Valid()
      modifies this
      ensures Valid() && status == if key in old(Value()).Keys() then InvalidArgument else Ok
      ensures Value() == if status == Ok then old(Value()).Insert(key, priority) else old(Value())
    {
      if key in index {
        return InvalidArgument;
      }
      InsertKeys(Value(), key, priority);
      keys := if fifo then keys + [key] else [key] + keys;
      index := index + {key};
      return Ok;
    }

    method Update(key: Key, priority: real) returns (status: Status)
      requires Valid()
      ensures status == if key in Value().Keys() then Ok else InvalidArgument
      ensures status == Ok ==> Value() == Value().Update(key, priority)
    {
      return if key in index then Ok else InvalidArgument;
    }

    method Delete(key: Key) returns (status: Status)
      requires Valid()
      modifies this
      ensures Valid() && status == if key in old(Value()).Keys() then Ok else InvalidArgument
      ensures Value() == if status == Ok then old(Value()).Delete(key) else old(Value())
    {
      if key !in index {
        return InvalidArgument;
      }
      DeleteKeys(Value(), key);
      keys := Without(keys, key);
      index := index - {key};
      return Ok;
    }

    /** The front of the list: the oldest key of a FIFO, the newest of a LIFO. */
    method Sample() returns (key: Key, probability: real)
      requires Valid() && keys != []
      ensures probability == 1.0 && Value().MaySample(key)
      ensures forall k :: Value().MaySample(k) ==> k == key
    {
      return keys[0], 1.0;
    }

    method Clear()
      modifies this
      ensures Valid() && Value() == old(Value()).Clear()
    {
      keys, index := [], {};
    }
  }
}
