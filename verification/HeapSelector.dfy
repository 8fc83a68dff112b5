/** A binary heap whose elements know their own position, so that any of them can
    be removed or re-weighted. */
module IntrusiveHeap {

  import opened Status
  import opened BackLinks

  /** The order of the heap: by priority, then by update number. */
  datatype Rank = Rank(priority: real, update: nat)

  predicate Less(a: Rank, b: Rank) {
    a.priority < b.priority || (a.priority == b.priority && a.update < b.update)
  }

  /** The element at `i` is not before its parent. */
  predicate Ordered(heap: seq<Key>, rank: map<Key, Rank>, i: nat)
    requires 0 < i < |heap| && forall k :: k in heap ==> k in rank
  {
    !Less(rank[heap[i]], rank[heap[Parent(i)]])
  }

  ghost predicate Ranked(heap: seq<Key>, rank: map<Key, Rank>) {
    forall k :: k in heap ==> k in rank
  }

  ghost predicate HeapOrdered(heap: seq<Key>, rank: map<Key, Rank>) {
    && Ranked(heap, rank)
    && forall i {:trigger Ordered(heap, rank, i)} :: 0 < i < |heap| ==> Ordered(heap, rank, i)
  }

  /** The children of `h` are in order with respect to the parent of `h`. */
  ghost predicate Bridged(heap: seq<Key>, rank: map<Key, Rank>, h: nat)
    requires h < |heap| && Ranked(heap, rank)
  {
    h > 0 ==> forall c :: 2 * h + 1 <= c <= 2 * h + 2 && c < |heap| ==> !Less(rank[heap[c]], rank[heap[Parent(h)]])
  }

  /** Only the element at `h` may be out of order, in either direction. */
  ghost predicate OrderedAround(heap: seq<Key>, rank: map<Key, Rank>, h: nat) {
    && h < |heap| && Ranked(heap, rank) && Bridged(heap, rank, h)
    && forall i {:trigger Ordered(heap, rank, i)} ::
         0 < i < |heap| && i != h && Parent(i) != h ==> Ordered(heap, rank, i)
  }

  /** Only the element at `h` may be before its parent. */
  ghost predicate OrderedButUp(heap: seq<Key>, rank: map<Key, Rank>, h: nat) {
    && OrderedAround(heap, rank, h)
    && forall i {:trigger Ordered(heap, rank, i)} :: 0 < i < |heap| && i != h ==> Ordered(heap, rank, i)
  }

  /** Only the children of `h` may be before the element at `h`. */
  ghost predicate OrderedButDown(heap: seq<Key>, rank: map<Key, Rank>, h: nat) {
    && OrderedAround(heap, rank, h)
    && (h > 0 ==> Ordered(heap, rank, h))
  }

  function Exchange(heap: seq<Key>, i: nat, j: nat): seq<Key>
    requires i < |heap| && j < |heap|
  {
    heap[i := heap[j]][j := heap[i]]
  }

  lemma ExchangeUp(heap: seq<Key>, rank: map<Key, Rank>, h: nat)
    requires OrderedButUp(heap, rank, h) && h > 0
    requires !Less(rank[heap[Parent(h)]], rank[heap[h]])
    ensures OrderedButUp(Exchange(heap, h, Parent(h)), rank, Parent(h))
  {
    var p := Parent(h);
    var v := Exchange(heap, h, p);
    if p > 0 {
      assert Ordered(heap, rank, p);
    }
    forall i | 0 < i < |v| && i != p
      ensures Ordered(v, rank, i)
    {
      assert i != h ==> Ordered(heap, rank, i);
    }
    forall c | p > 0 && 2 * p + 1 <= c <= 2 * p + 2 && c < |v|
      ensures !Less(rank[v[c]], rank[v[Parent(p)]])
    {
      assert c != h ==> Ordered(heap, rank, c);
    }
  }

  lemma ExchangeDown(heap: seq<Key>, rank: map<Key, Rank>, h: nat, kid: nat)
    requires OrderedButDown(heap, rank, h) && 2 * h + 1 <= kid <= 2 * h + 2 && kid < |heap|
    requires forall c :: 2 * h + 1 <= c <= 2 * h + 2 && c < |heap| ==> !Less(rank[heap[c]], rank[heap[kid]])
    requires !Less(rank[heap[h]], rank[heap[kid]])
    ensures OrderedButDown(Exchange(heap, h, kid), rank, kid)
  {
    var v := Exchange(heap, h, kid);
    forall i | 0 < i < |v| && Parent(i) != kid
      ensures Ordered(v, rank, i)
    {
      assert i != h && Parent(i) != h ==> Ordered(heap, rank, i);
      assert i == h ==> Ordered(heap, rank, h);
    }
    forall c | 2 * kid + 1 <= c <= 2 * kid + 2 && c < |v|
      ensures !Less(rank[v[c]], rank[v[Parent(kid)]])
    {
      assert Ordered(heap, rank, c);
    }
  }

  /** The first element of a heap is minimal. */
  lemma {:induction false} TopIsLeast(heap: seq<Key>, rank: map<Key, Rank>, i: nat)
    requires HeapOrdered(heap, rank) && i < |heap|
    ensures !Less(rank[heap[i]], rank[heap[0]])
  {
    if i > 0 {
      TopIsLeast(heap, rank, Parent(i));
      assert Ordered(heap, rank, i);
    }
  }

  // ---------------------------------------------------------------------
  // Sifting, with a hole where the moved element will end up
  // ---------------------------------------------------------------------

  /** The heap and its links as they will be once `t` fills the hole at `h`. */
  ghost predicate Filled(heap: seq<Key>, pos: map<Key, nat>, t: Key, h: nat) {
    h < |heap| && Linked(heap[h := t], pos[t := h], |heap|)
  }

  /** Moving the element at `from` into the hole at `h` is an exchange. */
  lemma MoveIntoHole(heap: seq<Key>, pos: map<Key, nat>, t: Key, h: nat, from: nat)
    requires Filled(heap, pos, t, h) && from < |heap| && from != h
    ensures var heap', pos' := heap[h := heap[from]], pos[heap[from] := h];
      && Filled(heap', pos', t, from)
      && heap'[from := t] == Exchange(heap[h := t], h, from)
      && pos'[t := from].Keys == pos[t := h].Keys
  {
    var v := heap[h := t];
    var q: map<Key, nat> := pos[t := h];
    var heap' := heap[h := heap[from]];
    var pos': map<Key, nat> := pos[heap[from] := h];
    ExchangeLinks(v, q, h, from);
    assert heap'[from := t] == Exchange(v, h, from);
    assert v[from] == heap[from] != t by {
      assert q[v[from]] == from && q[v[h]] == h;
    }
    assert pos'[t := from] == q[v[from] := h][v[h] := from];
  }

  method FixHeapUp(heap: seq<Key>, pos: map<Key, nat>, rank: map<Key, Rank>, t: Key)
    returns (heap': seq<Key>, pos': map<Key, nat>)
    requires Linked(heap, pos, |heap|) && t in pos && OrderedButUp(heap, rank, pos[t])
    ensures Linked(heap', pos', |heap'|) && |heap'| == |heap| && pos'.Keys == pos.Keys
    ensures HeapOrdered(heap', rank)
  {
    var h := pos[t];
    assert SlotHolds(heap, pos, t);
    heap', pos' := heap, pos;
    assert heap[h := t] == heap && pos[t := h] == pos;
    while h != 0
      invariant |heap'| == |heap| && Filled(heap', pos', t, h) && pos'[t := h].Keys == pos.Keys
      invariant OrderedButUp(heap'[h := t], rank, h)
    {
      var parent := (h - 1) / 2;
      assert heap'[h := t][parent] == heap'[parent];
      if Less(rank[heap'[parent]], rank[t]) {
        break;
      }
      MoveIntoHole(heap', pos', t, h, parent);
      ExchangeUp(heap'[h := t], rank, h);
      heap' := heap'[h := heap'[parent]];
      pos' := pos'[heap'[h] := h];
      h := parent;
    }
    heap' := heap'[h := t];
    pos' := pos'[t := h];
    assert h > 0 ==> Ordered(heap', rank, h);
  }

  method FixHeapDown(heap: seq<Key>, pos: map<Key, nat>, rank: map<Key, Rank>, t: Key)
    returns (heap': seq<Key>, pos': map<Key, nat>)
    requires Linked(heap, pos, |heap|) && t in pos && OrderedButDown(heap, rank, pos[t])
    ensures Linked(heap', pos', |heap'|) && |heap'| == |heap| && pos'.Keys == pos.Keys
    ensures HeapOrdered(heap', rank)
  {
    var h := pos[t];
    assert SlotHolds(heap, pos, t);
    heap', pos' := heap, pos;
    assert heap[h := t] == heap && pos[t := h] == pos;
    while true
      invariant |heap'| == |heap| && Filled(heap', pos', t, h) && pos'[t := h].Keys == pos.Keys
      invariant OrderedButDown(heap'[h := t], rank, h)
      decreases |heap| - h
    {
      ghost var v := heap'[h := t];
      var kid := 2 * h + 1;
      if kid >= |heap'| {
        break;
      }
      assert v[kid] == heap'[kid];
      if kid + 1 < |heap'| {
        assert v[kid + 1] == heap'[kid + 1];
        if Less(rank[heap'[kid + 1]], rank[heap'[kid]]) {
          kid := kid + 1;
        }
      }
      if Less(rank[t], rank[heap'[kid]]) {
        ChildrenInOrder(v, rank, h, kid);
        break;
      }
      MoveIntoHole(heap', pos', t, h, kid);
      ExchangeDown(v, rank, h, kid);
      heap' := heap'[h := heap'[kid]];
      pos' := pos'[heap'[h] := h];
      h := kid;
    }
    heap' := heap'[h := t];
    pos' := pos'[t := h];
    forall i | 0 < i < |heap'|
      ensures Ordered(heap', rank, i)
    {
    }
  }

  lemma ChildrenInOrder(heap: seq<Key>, rank: map<Key, Rank>, h: nat, kid: nat)
    requires OrderedButDown(heap, rank, h) && 2 * h + 1 <= kid <= 2 * h + 2 && kid < |heap|
    requires forall c :: 2 * h + 1 <= c <= 2 * h + 2 && c < |heap| ==> !Less(rank[heap[c]], rank[heap[kid]])
    requires Less(rank[heap[h]], rank[heap[kid]])
    ensures forall i {:trigger Ordered(heap, rank, i)} :: 0 < i < |heap| && Parent(i) == h ==> Ordered(heap, rank, i)
  {
    forall i | 0 < i < |heap| && Parent(i) == h
      ensures Ordered(heap, rank, i)
    {
      assert i == 2 * h + 1 || i == 2 * h + 2;
    }
  }

  /** Restores the order after the rank of `t` has changed. */
  method Adjust(heap: seq<Key>, pos: map<Key, nat>, rank: map<Key, Rank>, t: Key)
    returns (heap': seq<Key>, pos': map<Key, nat>)
    requires Linked(heap, pos, |heap|) && t in pos && OrderedAround(heap, rank, pos[t])
    ensures Linked(heap', pos', |heap'|) && |heap'| == |heap| && pos'.Keys == pos.Keys
    ensures HeapOrdered(heap', rank)
  {
    var h := pos[t];
    assert SlotHolds(heap, pos, t);
    if h != 0 && Less(rank[t], rank[heap[(h - 1) / 2]]) {
      forall i | 0 < i < |heap| && i != h
        ensures Ordered(heap, rank, i)
      {
        assert Parent(i) == h ==> i == 2 * h + 1 || i == 2 * h + 2;
      }
      heap', pos' := FixHeapUp(heap, pos, rank, t);
    } else {
      heap', pos' := FixHeapDown(heap, pos, rank, t);
    }
  }

  /** A heap stays in order around the one element whose rank is changed. */
  lemma RerankOrdered(heap: seq<Key>, pos: map<Key, nat>, rank: map<Key, Rank>, t: Key, r: Rank)
    requires Linked(heap, pos, |heap|) && t in pos && HeapOrdered(heap, rank)
    ensures OrderedAround(heap, rank[t := r], pos[t])
  {
    var h, rank' := pos[t], rank[t := r];
    assert SlotHolds(heap, pos, t);
    forall i | 0 <= i < |heap| && i != h
      ensures heap[i] != t
    {
      assert pos[heap[i]] == i;
    }
    OrderedAroundAny(heap, rank, h);
    forall i | 0 < i < |heap| && i != h && Parent(i) != h
      ensures Ordered(heap, rank', i)
    {
      assert Ordered(heap, rank, i);
    }
  }

  lemma OrderedAroundAny(heap: seq<Key>, rank: map<Key, Rank>, h: nat)
    requires HeapOrdered(heap, rank) && h < |heap|
    ensures OrderedAround(heap, rank, h)
  {
    if h > 0 {
      assert Ordered(heap, rank, h);
      forall c | 2 * h + 1 <= c <= 2 * h + 2 && c < |heap|
        ensures !Less(rank[heap[c]], rank[heap[Parent(h)]])
      {
        assert Ordered(heap, rank, c);
      }
    }
  }

  /** Overwriting an inner element by the last one leaves order around its slot. */
  lemma ReplaceOrdered(heap: seq<Key>, rank: map<Key, Rank>, h: nat)
    requires HeapOrdered(heap, rank) && h < |heap| - 1
    ensures OrderedAround(heap[h := heap[|heap| - 1]][..|heap| - 1], rank, h)
  {
    var last := |heap| - 1;
    var v := heap[h := heap[last]][..last];
    OrderedAroundAny(heap, rank, h);
    forall i | 0 < i < |v| && i != h && Parent(i) != h
      ensures Ordered(v, rank, i)
    {
      assert Ordered(heap, rank, i);
    }
  }

  lemma ShorterOrdered(heap: seq<Key>, rank: map<Key, Rank>, n: nat)
    requires HeapOrdered(heap, rank) && n <= |heap|
    ensures HeapOrdered(heap[..n], rank)
  {
    forall i | 0 < i < n
      ensures Ordered(heap[..n], rank, i)
    {
      assert Ordered(heap, rank, i);
    }
  }

  lemma PushOrdered(heap: seq<Key>, rank: map<Key, Rank>, key: Key, r: Rank)
    requires HeapOrdered(heap, rank) && key !in heap
    ensures OrderedButUp(heap + [key], rank[key := r], |heap|)
  {
    var heap', rank' := heap + [key], rank[key := r];
    forall i | 0 < i < |heap|
      ensures Ordered(heap', rank', i)
    {
      assert Ordered(heap, rank, i);
    }
  }

  lemma RestrictOrdered(heap: seq<Key>, rank: map<Key, Rank>, key: Key)
    requires HeapOrdered(heap, rank) && key !in heap
    ensures HeapOrdered(heap, rank - {key})
  {
    forall i | 0 < i < |heap|
      ensures Ordered(heap, rank - {key}, i)
    {
      assert Ordered(heap, rank, i);
    }
  }
}

/** `HeapSelector`: always samples the key with the lowest (or highest) priority,
    breaking ties in favour of the least recently inserted or updated key. */
module HeapSelector {

  import opened Status
  import opened BackLinks
  import opened IntrusiveHeap

  /** Update numbers are all different and below the counter. */
  ghost predicate Numbered(rank: map<Key, Rank>, count: nat) {
    && (forall k :: k in rank ==> rank[k].update < count)
    && (forall j, k :: j in rank && k in rank && j != k ==> rank[j].update != rank[k].update)
  }

  lemma LinkedKeys(heap: seq<Key>, pos: map<Key, nat>)
    requires Linked(heap, pos, |heap|)
    ensures forall k :: k in heap <==> k in pos
  {
    forall k | k in pos
      ensures k in heap
    {
      assert SlotHolds(heap, pos, k);
    }
  }

  class HeapSelector {
    const minHeap: bool
    var heap: seq<Key>
    var pos: map<Key, nat>
    var rank: map<Key, Rank>      // signed priority and update number of each node
    var updateCount: nat

    ghost predicate Valid()
      reads this
    {
      && Linked(heap, pos, |heap|)
      && pos.Keys == rank.Keys
      && HeapOrdered(heap, rank)
      && Numbered(rank, updateCount)
    }

    function Signed(priority: real): real {
      if minHeap then priority else -priority
    }

    /** The priority that the key was given. */
    function PriorityOf(key: Key): real
      requires key in rank
      reads this
    {
      Signed(rank[key].priority)
    }

    constructor (minHeap: bool)
      ensures Valid() && rank == map[] && this.minHeap == minHeap
    {
      this.minHeap := minHeap;
      heap, pos, rank, updateCount := [], map[], map[], 0;
    }

    method Insert(key: Key, priority: real) returns (status: Status)
      requires Valid()
      modifies this
      ensures Valid()
      ensures status == if key in old(rank) then InvalidArgument else Ok
      ensures rank == if status == Ok then old(rank)[key := Rank(Signed(priority), old(updateCount))] else old(rank)
      ensures updateCount == old(updateCount) + if status == Ok then 1 else 0
      ensures status == Ok ==> PriorityOf(key) == priority && rank[key].update == old(updateCount)
      ensures forall k :: k in old(rank) && (k != key || status != Ok) ==>
        PriorityOf(k) == old(PriorityOf(k)) && rank[k].update == old(rank[k].update)
    {
      if key in rank {
        return InvalidArgument;
      }
      var r := Rank(Signed(priority), updateCount);
      LinkedKeys(heap, pos);
      PushOrdered(heap, rank, key, r);
      PushLinks(heap, pos, key);
      rank, updateCount := rank[key := r], updateCount + 1;
      heap, pos := FixHeapUp(heap + [key], pos[key := |heap|], rank, key);
      return Ok;
    }

    method Update(key: Key, priority: real) returns (status: Status)
      requires Valid()
      modifies this
      ensures Valid()
      ensures status == if key in old(rank) then Ok else InvalidArgument
      ensures rank == if status == Ok then old(rank)[key := Rank(Signed(priority), old(updateCount))] else old(rank)
      ensures updateCount == old(updateCount) + if status == Ok then 1 else 0
      ensures status == Ok ==> PriorityOf(key) == priority && rank[key].update == old(updateCount)
      ensures forall k :: k in old(rank) && (k != key || status != Ok) ==>
        PriorityOf(k) == old(PriorityOf(k)) && rank[k].update == old(rank[k].update)
    {
      if key !in rank {
        return InvalidArgument;
      }
      var r := Rank(Signed(priority), updateCount);
      RerankOrdered(heap, pos, rank, key, r);
      rank, updateCount := rank[key := r], updateCount + 1;
      assert rank.Keys == old(rank).Keys;
      heap, pos := Adjust(heap, pos, rank, key);
      return Ok;
    }

    method Delete(key: Key) returns (status: Status)
      requires Valid()
      modifies `heap, `pos, `rank
      ensures Valid()
      ensures status == if key in old(rank) then Ok else InvalidArgument
      ensures rank == if status == Ok then old(rank) - {key} else old(rank)
      ensures forall k :: k in rank ==> PriorityOf(k) == old(PriorityOf(k))
    {
      if key !in rank {
        return InvalidArgument;
      }
      heap, pos := Remove(heap, pos, rank, key);
      LinkedKeys(heap, pos);
      RestrictOrdered(heap, rank, key);
      rank := rank - {key};
      return Ok;
    }

    method Clear()
      modifies `heap, `pos, `rank
      ensures Valid() && rank == map[]
    {
      heap, pos, rank := [], map[], map[];
    }

    /** The key with the best priority; among several, the one that was inserted or
        updated first. */
    method Sample() returns (key: Key, probability: real)
      requires Valid() && rank != map[]
      ensures key in rank && probability == 1.0
      ensures forall k :: k in rank && k != key ==>
        || (if minHeap then PriorityOf(key) < PriorityOf(k) else PriorityOf(key) > PriorityOf(k))
        || (PriorityOf(key) == PriorityOf(k) && rank[key].update < rank[k].update)
    {
      LinkedKeys(heap, pos);
      var some :| some in rank;
      assert some in pos;
      forall k | k in rank && k != heap[0]
        ensures Less(rank[heap[0]], rank[k])
      {
        assert SlotHolds(heap, pos, k);
        TopIsLeast(heap, rank, pos[k]);
        assert rank[heap[0]].update != rank[k].update;
      }
      return heap[0], 1.0;
    }
  }

  lemma PushLinks(heap: seq<Key>, pos: map<Key, nat>, key: Key)
    requires Linked(heap, pos, |heap|) && key !in pos
    ensures Linked(heap + [key], pos[key := |heap|], |heap| + 1)
  {
    var heap', pos' := heap + [key], pos[key := |heap|];
    forall k | k in pos'
      ensures SlotHolds(heap', pos', k)
    {
      assert k != key ==> SlotHolds(heap, pos, k);
    }
  }

  lemma TrimLinks(heap: seq<Key>, pos: map<Key, nat>, n: nat)
    requires Linked(heap, pos, n)
    ensures Linked(heap[..n], pos, n)
  {
    forall k | k in pos
      ensures SlotHolds(heap[..n], pos, k)
    {
      assert SlotHolds(heap, pos, k);
    }
  }

  /** Takes any element out of the heap. */
  method Remove(heap: seq<Key>, pos: map<Key, nat>, rank: map<Key, Rank>, t: Key)
    returns (heap': seq<Key>, pos': map<Key, nat>)
    requires Linked(heap, pos, |heap|) && t in pos && HeapOrdered(heap, rank)
    ensures Linked(heap', pos', |heap'|) && pos'.Keys == pos.Keys - {t}
    ensures HeapOrdered(heap', rank)
  {
    var h, last := pos[t], |heap| - 1;
    assert SlotHolds(heap, pos, t);
    SwapOutLinks(heap, pos, last, t);
    TrimLinks(heap[h := heap[last]], SwapOut(heap, pos, last, t), last);
    if h == last {
      ShorterOrdered(heap, rank, last);
      assert heap[h := heap[last]] == heap;
      assert SwapOut(heap, pos, last, t) == pos - {t};
      return heap[..last], pos - {t};
    }
    var elem := heap[last];
    ReplaceOrdered(heap, rank, h);
    assert elem in pos && pos[elem] == last;
    heap', pos' := Adjust(heap[h := elem][..last], pos[elem := h] - {t}, rank, elem);
  }
}
