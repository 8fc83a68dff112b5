/** The array-backed sum tree of `PrioritizedSelector`.

    The tree is a flat vector: node `i` has the children `2i+1` and `2i+2`. Each
    node has a `value` (its own weight) and a `sum` (the weight of its subtree);
    the two fields are kept as two parallel vectors. */
module SumTree {

  import opened BackLinks

  /** Sum of the subtree at `i`; zero beyond the `n` occupied nodes. */
  function NodeSum(sums: seq<real>, n: nat, i: nat): real
    requires n <= |sums|
  {
    if i < n then sums[i] else 0.0
  }

  function ChildSums(sums: seq<real>, n: nat, i: nat): real
    requires n <= |sums|
  {
    NodeSum(sums, n, 2 * i + 1) + NodeSum(sums, n, 2 * i + 2)
  }

  /** The stored sum at `i` is the node's value plus its children's sums. */
  predicate SumHolds(values: seq<real>, sums: seq<real>, n: nat, i: nat)
    requires n <= |values| == |sums| && i < |sums|
  {
    sums[i] == values[i] + ChildSums(sums, n, i)
  }

  /** Only occupied nodes carry weight, and no weight is negative. */
  ghost predicate ValuesOk(values: seq<real>, n: nat)
  {
    && n <= |values|
    && (forall i :: 0 <= i < |values| ==> values[i] >= 0.0)
    && (forall i :: n <= i < |values| ==> values[i] == 0.0)
  }

  ghost predicate SumsOk(values: seq<real>, sums: seq<real>, n: nat)
    requires n <= |values|
  {
    && |sums| == |values|
    && (forall i :: 0 <= i < |sums| ==> sums[i] >= 0.0)
    && (forall i {:trigger SumHolds(values, sums, n, i)} :: 0 <= i < |sums| ==> SumHolds(values, sums, n, i))
  }

  ghost predicate TreeOk(values: seq<real>, sums: seq<real>, n: nat)
  {
    ValuesOk(values, n) && SumsOk(values, sums, n)
  }

  /** Every node but `hole` is in order; the sum at the hole is `diff` short. */
  ghost predicate SumsOffAt(values: seq<real>, sums: seq<real>, n: nat, hole: nat, diff: real)
    requires n <= |values|
  {
    && |sums| == |values| && hole < |sums|
    && (forall i :: 0 <= i < |sums| ==> sums[i] >= 0.0)
    && (forall i {:trigger SumHolds(values, sums, n, i)} ::
          0 <= i < |sums| && i != hole ==> SumHolds(values, sums, n, i))
    && sums[hole] + diff == values[hole] + ChildSums(sums, n, hole)
  }

  // ---------------------------------------------------------------------
  // The total weight
  // ---------------------------------------------------------------------

  /** Total weight of the nodes `k..n-1`, by plain summation. */
  ghost function WeightFrom(values: seq<real>, n: nat, k: nat): real
    requires n <= |values|
    decreases n - k
  {
    if k >= n then 0.0 else values[k] + WeightFrom(values, n, k + 1)
  }

  /** Sum of the stored subtree sums of the nodes `lo..hi-1`. */
  ghost function SumsBetween(sums: seq<real>, n: nat, lo: nat, hi: nat): real
    requires n <= |sums|
    decreases hi - lo
  {
    if lo >= hi then 0.0 else NodeSum(sums, n, lo) + SumsBetween(sums, n, lo + 1, hi)
  }

  lemma {:induction false} SumsBetweenLast(sums: seq<real>, n: nat, lo: nat, hi: nat)
    requires n <= |sums| && lo <= hi
    ensures SumsBetween(sums, n, lo, hi + 1) == SumsBetween(sums, n, lo, hi) + NodeSum(sums, n, hi)
    decreases hi - lo
  {
    if lo < hi {
      SumsBetweenLast(sums, n, lo + 1, hi);
    }
  }

  lemma {:induction false} SumsBetweenBeyond(sums: seq<real>, n: nat, lo: nat, hi: nat)
    requires n <= |sums| && n <= lo
    ensures SumsBetween(sums, n, lo, hi) == 0.0
    decreases hi - lo
  {
    if lo < hi {
      SumsBetweenBeyond(sums, n, lo + 1, hi);
    }
  }

  /** The nodes from `k` on form a forest whose roots are `k..2k`. */
  lemma {:induction false} ForestWeight(values: seq<real>, sums: seq<real>, n: nat, k: nat)
    requires TreeOk(values, sums, n)
    ensures WeightFrom(values, n, k) == SumsBetween(sums, n, k, 2 * k + 1)
    decreases n - k
  {
    if k >= n {
      SumsBetweenBeyond(sums, n, k, 2 * k + 1);
    } else {
      ForestWeight(values, sums, n, k + 1);
      SumsBetweenLast(sums, n, k + 1, 2 * k + 2);
      SumsBetweenLast(sums, n, k + 1, 2 * k + 1);
      assert SumHolds(values, sums, n, k);
    }
  }

  /** The root's sum is the total weight of all occupied nodes. */
  lemma RootSumIsTotalWeight(values: seq<real>, sums: seq<real>, n: nat)
    requires TreeOk(values, sums, n)
    ensures NodeSum(sums, n, 0) == WeightFrom(values, n, 0)
  {
    ForestWeight(values, sums, n, 0);
    assert SumsBetween(sums, n, 0, 1) == NodeSum(sums, n, 0) + SumsBetween(sums, n, 1, 1);
  }

  // ---------------------------------------------------------------------
  // The descent and the intervals it samples from
  // ---------------------------------------------------------------------

  /** Where the interval of the whole subtree at `i` starts in [0, total). */
  ghost function SubtreeStart(sums: seq<real>, n: nat, i: nat): real
    requires n <= |sums|
  {
    if i == 0 then 0.0
    else
      var p := Parent(i);
      SubtreeStart(sums, n, p) + if i == 2 * p + 2 then NodeSum(sums, n, 2 * p + 1) else 0.0
  }

  lemma ChildStarts(sums: seq<real>, n: nat, i: nat)
    requires n <= |sums|
    ensures SubtreeStart(sums, n, 2 * i + 1) == SubtreeStart(sums, n, i)
    ensures SubtreeStart(sums, n, 2 * i + 2) == SubtreeStart(sums, n, i) + NodeSum(sums, n, 2 * i + 1)
  {
    assert Parent(2 * i + 1) == i && Parent(2 * i + 2) == i;
  }

  ghost predicate InSubtree(sums: seq<real>, n: nat, i: nat, x: real)
    requires n <= |sums|
  {
    SubtreeStart(sums, n, i) <= x < SubtreeStart(sums, n, i) + NodeSum(sums, n, i)
  }

  /** The node's own interval, of the length of its weight, follows the intervals
      of its left and right subtrees. */
  ghost predicate InOwn(values: seq<real>, sums: seq<real>, n: nat, i: nat, x: real)
    requires i < n <= |values| == |sums|
  {
    var start := SubtreeStart(sums, n, i) + ChildSums(sums, n, i);
    start <= x < start + values[i]
  }

  /** The node that the descent from `i` ends at for the weight `w`. */
  ghost function Descend(values: seq<real>, sums: seq<real>, n: nat, i: nat, w: real): (r: nat)
    requires TreeOk(values, sums, n) && i < n && 0.0 <= w < sums[i]
    ensures r < n
    decreases n - i
  {
    var left := NodeSum(sums, n, 2 * i + 1);
    var right := NodeSum(sums, n, 2 * i + 2);
    if w < left then Descend(values, sums, n, 2 * i + 1, w)
    else if w - left < right then Descend(values, sums, n, 2 * i + 2, w - left)
    else i
  }

  /** Descending from the root to a point inside a subtree passes through it. */
  lemma {:induction false} DescentEntersSubtree(values: seq<real>, sums: seq<real>, n: nat, i: nat, x: real)
    requires TreeOk(values, sums, n) && i < n && InSubtree(sums, n, i, x)
    ensures 0.0 <= x < sums[0]
    ensures Descend(values, sums, n, 0, x) == Descend(values, sums, n, i, x - SubtreeStart(sums, n, i))
  {
    if i > 0 {
      var p := Parent(i);
      assert i == 2 * p + 1 || i == 2 * p + 2;
      assert SumHolds(values, sums, n, p);
      DescentEntersSubtree(values, sums, n, p, x);
    }
  }

  /** The descent ends at the node whose own interval holds the target. */
  lemma {:induction false} DescentLandsInside(values: seq<real>, sums: seq<real>, n: nat, i: nat, w: real)
    requires TreeOk(values, sums, n) && i < n && 0.0 <= w < sums[i]
    ensures InOwn(values, sums, n, Descend(values, sums, n, i, w), SubtreeStart(sums, n, i) + w)
    decreases n - i
  {
    ChildStarts(sums, n, i);
    var left := NodeSum(sums, n, 2 * i + 1);
    if w < left {
      DescentLandsInside(values, sums, n, 2 * i + 1, w);
    } else if w - left < NodeSum(sums, n, 2 * i + 2) {
      DescentLandsInside(values, sums, n, 2 * i + 2, w - left);
    } else {
      assert SumHolds(values, sums, n, i);
    }
  }

  /** The own intervals tile [0, total): the descent for `x` returns node `i`
      exactly when `x` lies in the interval of `i`. */
  lemma DescentIffInterval(values: seq<real>, sums: seq<real>, n: nat, x: real, i: nat)
    requires TreeOk(values, sums, n) && i < n && 0.0 <= x < sums[0]
    ensures Descend(values, sums, n, 0, x) == i <==> InOwn(values, sums, n, i, x)
  {
    DescentLandsInside(values, sums, n, 0, x);
    if InOwn(values, sums, n, i, x) {
      assert SumHolds(values, sums, n, i);
      DescentEntersSubtree(values, sums, n, i, x);
    }
  }

  /** No interval reaches outside [0, total). */
  lemma {:induction false} SubtreeInsideTotal(values: seq<real>, sums: seq<real>, n: nat, i: nat)
    requires TreeOk(values, sums, n) && i < n
    ensures 0.0 <= SubtreeStart(sums, n, i)
    ensures SubtreeStart(sums, n, i) + sums[i] <= sums[0]
  {
    if i > 0 {
      var p := Parent(i);
      assert SumHolds(values, sums, n, p);
      SubtreeInsideTotal(values, sums, n, p);
    }
  }

  // ---------------------------------------------------------------------
  // Maintenance
  // ---------------------------------------------------------------------

  /** Adds `diff` to one stored sum, clamping at zero. */
  function Bump(sums: seq<real>, i: nat, diff: real): seq<real>
    requires i < |sums|
  {
    var s := sums[i] + diff;
    sums[i := if s < 0.0 then 0.0 else s]
  }

  /** How far the stored sum at `i` is from what its neighbours imply. */
  function ErrorAt(values: seq<real>, sums: seq<real>, n: nat, i: nat): real
    requires n <= |values| == |sums| && i < |sums|
  {
    var e := sums[i] - NodeSum(sums, n, 2 * i + 1) - NodeSum(sums, n, 2 * i + 2) - values[i];
    if e < 0.0 then -e else e
  }

  /** The state of the climb once the sum at `i` has been corrected. */
  ghost predicate ClimbedTo(values: seq<real>, sums: seq<real>, n: nat, i: nat, diff: real)
    requires n <= |values|
  {
    if i == 0 then SumsOk(values, sums, n) else SumsOffAt(values, sums, n, Parent(i), diff)
  }

  /** Correcting the hole moves it one level up, without clamping and without
      leaving an error behind. */
  lemma BumpMovesHole(values: seq<real>, sums: seq<real>, n: nat, hole: nat, diff: real)
    requires ValuesOk(values, n) && hole < n && SumsOffAt(values, sums, n, hole, diff)
    ensures ErrorAt(values, Bump(sums, hole, diff), n, hole) == 0.0
    ensures ClimbedTo(values, Bump(sums, hole, diff), n, hole, diff)
  {
    var u := Bump(sums, hole, diff);
    forall i | 0 <= i < |u| && (hole == 0 || i != Parent(hole))
      ensures SumHolds(values, u, n, i)
    {
      assert i != hole ==> SumHolds(values, sums, n, i);
    }
    if hole > 0 {
      assert SumHolds(values, sums, n, Parent(hole));
    }
  }

  lemma SetValueOpensHole(values: seq<real>, sums: seq<real>, n: nat, i: nat, value: real)
    requires TreeOk(values, sums, n) && i < n && value >= 0.0
    ensures ValuesOk(values[i := value], n)
    ensures SumsOffAt(values[i := value], sums, n, i, value - values[i])
  {
    var u := values[i := value];
    assert SumHolds(values, sums, n, i);
    forall j | 0 <= j < |sums| && j != i
      ensures SumHolds(u, sums, n, j)
    {
      assert SumHolds(values, sums, n, j);
    }
  }

  /** A weightless last node may be counted as occupied or not. */
  lemma WeightlessNodeIsFree(values: seq<real>, sums: seq<real>, last: nat, n: nat, m: nat)
    requires TreeOk(values, sums, n)
    requires last < |values| && values[last] == 0.0
    requires last <= n <= last + 1 && last <= m <= last + 1
    ensures TreeOk(values, sums, m)
  {
    assert SumHolds(values, sums, n, last);
    forall i | 0 <= i < |sums|
      ensures SumHolds(values, sums, m, i)
    {
      assert SumHolds(values, sums, n, i);
    }
  }

  lemma PaddingKeepsTree(values: seq<real>, sums: seq<real>, n: nat, zeros: seq<real>)
    requires TreeOk(values, sums, n)
    requires forall i :: 0 <= i < |zeros| ==> zeros[i] == 0.0
    ensures TreeOk(values + zeros, sums + zeros, n)
  {
    forall i | 0 <= i < |sums + zeros|
      ensures SumHolds(values + zeros, sums + zeros, n, i)
    {
      if i < |sums| {
        assert SumHolds(values, sums, n, i);
      }
    }
  }

  lemma ZeroTree(values: seq<real>, sums: seq<real>)
    requires |sums| == |values|
    requires forall i :: 0 <= i < |sums| ==> sums[i] == 0.0 && values[i] == 0.0
    ensures TreeOk(values, sums, 0)
  {
  }

  lemma ZeroBeyond(values: seq<real>, sums: seq<real>, n: nat)
    requires TreeOk(values, sums, n)
    ensures forall i :: n <= i < |sums| ==> sums[i] == 0.0
  {
    forall i | n <= i < |sums|
      ensures sums[i] == 0.0
    {
      assert SumHolds(values, sums, n, i);
    }
  }
}

/** `PrioritizedSelector`: samples keys in proportion to a weight computed from
    their priority. `weightOf` stands for raising a priority to the configured
    exponent; real arithmetic is exact. */
module PrioritizedSelector {

  import opened Status
  import opened BackLinks
  import opened SumTree

  const INITIAL_CAPACITY: nat := 131072
  const MAX_APPROXIMATION_ERROR: real := 0.0001

  ghost function WeightsOf(values: seq<real>, m: map<Key, nat>): map<Key, real>
    requires forall k :: k in m ==> m[k] < |values|
  {
    map k | k in m :: values[m[k]]
  }

  lemma AppendWeight(values: seq<real>, m: map<Key, nat>, n: nat, key: Key, weight: real)
    requires (forall k :: k in m ==> m[k] < n) && key !in m && n < |values|
    ensures WeightsOf(values[n := weight], m[key := n]) == WeightsOf(values, m)[key := weight]
    ensures |m[key := n]| == |m| + 1
  {
    var m' := m[key := n];
    assert m'.Keys == m.Keys + {key};
  }

  lemma SetWeight(keys: seq<Key>, values: seq<real>, m: map<Key, nat>, n: nat, key: Key, weight: real)
    requires Linked(keys, m, n) && key in m && n <= |values|
    ensures WeightsOf(values[m[key] := weight], m) == WeightsOf(values, m)[key := weight]
  {
    forall k | k in m && k != key
      ensures m[k] != m[key]
    {
      assert SlotHolds(keys, m, k) && SlotHolds(keys, m, key);
    }
  }

  /** The weights after the last key took over the slot of `key`. */
  lemma SwapOutWeights(keys: seq<Key>, values: seq<real>, m: map<Key, nat>, last: nat, key: Key)
    requires Linked(keys, m, last + 1) && key in m && |keys| == |values|
    ensures var m' := SwapOut(keys, m, last, key);
      && Linked(keys[m[key] := keys[last]], m', last)
      && WeightsOf(values[m[key] := values[last]][last := 0.0], m') == WeightsOf(values, m) - {key}
  {
    SwapOutLinks(keys, m, last, key);
    assert SlotHolds(keys, m, key);
    forall k | k in m && k != key
      ensures m[k] != m[key]
    {
      assert SlotHolds(keys, m, k);
    }
    assert SwapOut(keys, m, last, key).Keys == m.Keys - {key};
  }

  class PrioritizedSelector {
    const weightOf: real -> real
    var capacity: nat
    var keys: seq<Key>
    var values: seq<real>
    var sums: seq<real>
    var keyToIndex: map<Key, nat>

    ghost predicate Valid()
      reads this
    {
      && (forall p :: p >= 0.0 ==> weightOf(p) >= 0.0)
      && 0 < capacity == |keys| == |values| == |sums|
      && Linked(keys, keyToIndex, |keyToIndex|)
      && TreeOk(values, sums, |keyToIndex|)
    }

    /** What the tree stands for: the weight of every key. */
    ghost function Weights(): map<Key, real>
      requires Valid()
      reads this
    {
      WeightsOf(values, keyToIndex)
    }

    constructor (weightOf: real -> real)
      requires forall p :: p >= 0.0 ==> weightOf(p) >= 0.0
      ensures Valid() && Weights() == map[]
      ensures this.weightOf == weightOf
    {
      this.weightOf := weightOf;
      capacity := INITIAL_CAPACITY;
      keys := seq(INITIAL_CAPACITY, _ => 0);
      values := seq(INITIAL_CAPACITY, _ => 0.0);
      sums := seq(INITIAL_CAPACITY, _ => 0.0);
      keyToIndex := map[];
      new;
      ZeroTree(values, sums);
    }

    /** Recomputes every sum bottom-up, whatever the sums were before. */
    method ReinitializeSumTree()
      requires ValuesOk(values, |keyToIndex|) && |sums| == |values|
      modifies `sums
      ensures TreeOk(values, sums, |keyToIndex|)
    {
      var n := |keyToIndex|;
      var i := |sums|;
      while i > 0
        invariant 0 <= i <= |sums| == |values|
        invariant forall j :: i <= j < |sums| ==> sums[j] >= 0.0
        invariant forall j {:trigger SumHolds(values, sums, n, j)} :: i <= j < |sums| ==> SumHolds(values, sums, n, j)
      {
        i := i - 1;
        ghost var before := sums;
        sums := sums[i := values[i] + NodeSum(sums, n, 2 * i + 1) + NodeSum(sums, n, 2 * i + 2)];
        forall j | i < j < |sums|
          ensures SumHolds(values, sums, n, j)
        {
          assert SumHolds(values, before, n, j);
        }
      }
    }

    /** Sets the weight of one node and corrects the sums on the way to the root.
        In exact arithmetic the rebuild never fires. */
    method SetNode(index: nat, value: real) returns (rebuilt: bool)
      requires ValuesOk(values, |keyToIndex|) && |sums| == |values|
      requires index < |keyToIndex| && value >= 0.0
      modifies `sums, `values
      ensures values == old(values)[index := value]
      ensures ValuesOk(values, |keyToIndex|) && |sums| == |values|
      ensures old(SumsOk(values, sums, |keyToIndex|)) ==> !rebuilt
      ensures rebuilt || old(SumsOk(values, sums, |keyToIndex|)) ==> SumsOk(values, sums, |keyToIndex|)
    {
      var n := |keyToIndex|;
      ghost var exact := SumsOk(values, sums, n);
      var difference := value - values[index];
      if exact {
        SetValueOpensHole(values, sums, n, index, value);
        BumpMovesHole(values[index := value], sums, n, index, difference);
      }
      values := values[index := value];
      sums := Bump(sums, index, difference);
      var error := ErrorAt(values, sums, n, index);
      var i := index;
      while i != 0 && error <= MAX_APPROXIMATION_ERROR
        invariant 0 <= i < n && |sums| == |values| && values == old(values)[index := value]
        invariant exact ==> error == 0.0 && ClimbedTo(values, sums, n, i, difference)
      {
        i := (i - 1) / 2;
        if exact {
          BumpMovesHole(values, sums, n, i, difference);
        }
        sums := Bump(sums, i, difference);
        error := ErrorAt(values, sums, n, i);
      }
      rebuilt := error > MAX_APPROXIMATION_ERROR;
      if rebuilt {
        ReinitializeSumTree();
      }
    }

    /** Doubles the vector when every node is occupied. */
    method Reserve()
      requires Valid()
      modifies `capacity, `keys, `values, `sums
      ensures Valid() && |keyToIndex| < capacity && Weights() == old(Weights())
    {
      if |keyToIndex| == capacity {
        var zeros := seq(capacity, _ => 0.0);
        PaddingKeepsTree(values, sums, |keyToIndex|, zeros);
        var more := seq(capacity, _ => 0);
        PaddingLinks(keys, keyToIndex, |keyToIndex|, more);
        keys := keys + more;
        values, sums := values + zeros, sums + zeros;
        capacity := 2 * capacity;
      }
    }

    method Insert(key: Key, priority: real) returns (status: Status)
      requires Valid()
      modifies this
      ensures Valid()
      ensures status.Ok? <==> priority >= 0.0 && key !in old(Weights())
      ensures !status.Ok? ==> status.InvalidArgument? && Weights() == old(Weights())
      ensures status.Ok? ==> Weights() == old(Weights())[key := weightOf(priority)]
    {
      if priority < 0.0 {
        return InvalidArgument;
      }
      Reserve();
      if key in keyToIndex {
        return InvalidArgument;
      }
      var index := |keyToIndex|;
      AppendLinks(keys, keyToIndex, index, key);
      AppendWeight(values, keyToIndex, index, key, weightOf(priority));
      WeightlessNodeIsFree(values, sums, index, index, index + 1);
      keyToIndex := keyToIndex[key := index];
      keys := keys[index := key];
      var _ := SetNode(index, weightOf(priority));
      return Ok;
    }

    method Update(key: Key, priority: real) returns (status: Status)
      requires Valid()
      modifies `values, `sums
      ensures Valid()
      ensures status.Ok? <==> priority >= 0.0 && key in old(Weights())
      ensures !status.Ok? ==> status.InvalidArgument? && Weights() == old(Weights())
      ensures status.Ok? ==> Weights() == old(Weights())[key := weightOf(priority)]
    {
      if priority < 0.0 || key !in keyToIndex {
        return InvalidArgument;
      }
      SetWeight(keys, values, keyToIndex, |keyToIndex|, key, weightOf(priority));
      var _ := SetNode(keyToIndex[key], weightOf(priority));
      return Ok;
    }

    /** Lets the last node take over slot `index`, unless it is the last one. */
    method ReplaceByLast(index: nat)
      requires Valid() && index < |keyToIndex|
      modifies `keys, `values, `sums, `keyToIndex
      ensures var last := old(|keyToIndex| - 1);
        && values == old(values)[index := old(values)[last]]
        && keys == old(keys)[index := old(keys)[last]]
        && keyToIndex == old(keyToIndex)[old(keys)[last] := index]
        && |keyToIndex| == last + 1
        && TreeOk(values, sums, last + 1)
    {
      var last := |keyToIndex| - 1;
      if index != last {
        var _ := SetNode(index, values[last]);
        var lastKey := keys[last];
        keys := keys[index := lastKey];
        assert keyToIndex[lastKey := index].Keys == keyToIndex.Keys;
        keyToIndex := keyToIndex[lastKey := index];
      } else {
        assert keyToIndex == keyToIndex[keys[last] := index];
      }
    }

    /** Frees the slot of a present key, moving the last node into it. */
    method Remove(key: Key)
      requires Valid() && key in keyToIndex
      modifies `keys, `values, `sums, `keyToIndex
      ensures Valid() && Weights() == old(Weights()) - {key}
    {
      var last := |keyToIndex| - 1;
      SwapOutLinks(keys, keyToIndex, last, key);
      SwapOutWeights(keys, values, keyToIndex, last, key);
      ReplaceByLast(keyToIndex[key]);
      var _ := SetNode(last, 0.0);
      WeightlessNodeIsFree(values, sums, last, last + 1, last);
      keyToIndex := keyToIndex - {key};
    }

    method Delete(key: Key) returns (status: Status)
      requires Valid()
      modifies `keys, `values, `sums, `keyToIndex
      ensures Valid()
      ensures status == if key in old(Weights()) then Ok else InvalidArgument
      ensures Weights() == if status.Ok? then old(Weights()) - {key} else old(Weights())
    {
      if key !in keyToIndex {
        return InvalidArgument;
      }
      Remove(key);
      return Ok;
    }

    method Clear()
      requires Valid()
      modifies `values, `sums, `keyToIndex
      ensures Valid() && Weights() == map[]
    {
      var n := |keyToIndex|;
      ZeroBeyond(values, sums, n);
      var i := 0;
      while i < n
        invariant 0 <= i <= n && |sums| == |values| == |old(values)|
        invariant forall j :: 0 <= j < i || n <= j < |sums| ==> sums[j] == 0.0 && values[j] == 0.0
      {
        sums, values := sums[i := 0.0], values[i := 0.0];
        i := i + 1;
      }
      keyToIndex := map[];
      ZeroTree(values, sums);
    }

    /** The node that the descent through the tree ends at. */
    method FindNode(x: real) returns (index: nat)
      requires Valid() && |keyToIndex| != 0 && 0.0 <= x < sums[0]
      ensures index < |keyToIndex| && Descend(values, sums, |keyToIndex|, 0, x) == index
    {
      var n := |keyToIndex|;
      index := 0;
      var weight := x;
      while true
        invariant index < n && 0.0 <= weight < sums[index]
        invariant Descend(values, sums, n, 0, x) == Descend(values, sums, n, index, weight)
        decreases n - index
      {
        var left := NodeSum(sums, n, 2 * index + 1);
        if weight < left {
          index := 2 * index + 1;
          continue;
        }
        weight := weight - left;
        var right := NodeSum(sums, n, 2 * index + 2);
        if weight < right {
          index := 2 * index + 2;
          continue;
        }
        break;
      }
    }

    /** `x` lies in the interval of `key` and of no other key. */
    ghost predicate Picks(x: real, key: Key)
      requires Valid()
      reads this
    {
      forall k :: k in keyToIndex ==>
        (key == k <==> InOwn(values, sums, |keyToIndex|, keyToIndex[k], x))
    }

    /** The key whose interval contains `x`. */
    method FindKey(x: real) returns (key: Key, weight: real)
      requires Valid() && |keyToIndex| != 0 && 0.0 <= x < sums[0]
      ensures key in keyToIndex && weight == Weights()[key] && weight > 0.0
      ensures Picks(x, key)
    {
      var n := |keyToIndex|;
      var index := FindNode(x);
      forall k | k in keyToIndex
        ensures keys[index] == k <==> InOwn(values, sums, n, keyToIndex[k], x)
      {
        assert SlotHolds(keys, keyToIndex, k);
        DescentIffInterval(values, sums, n, x, keyToIndex[k]);
      }
      assert InOwn(values, sums, n, keyToIndex[keys[index]], x);
      return keys[index], values[index];
    }

    /** Picks the key whose interval contains the target; reports its share of
        the total weight. Without any weight the choice is uniform. */
    method Sample(target: real) returns (key: Key, probability: real)
      requires Valid() && |keyToIndex| != 0 && 0.0 <= target < 1.0
      ensures key in keyToIndex
      ensures sums[0] == WeightFrom(values, |keyToIndex|, 0)
      ensures var n, total := |keyToIndex|, sums[0];
        if total == 0.0 then
          && probability == 1.0 / n as real
          && keyToIndex[key] as real <= Scaled(target, n as real) < keyToIndex[key] as real + 1.0
        else
          && total > 0.0
          && probability == Weights()[key] / total
          && Weights()[key] > 0.0
          && Picks(Scaled(target, total), key)
    {
      var n := |keyToIndex|;
      RootSumIsTotalWeight(values, sums, n);
      var total := sums[0];
      if total == 0.0 {
        var pos := Position(Scaled(target, n as real), n);
        return keys[pos], 1.0 / n as real;
      }
      var weight;
      key, weight := FindKey(Scaled(target, total));
      probability := weight / total;
    }
  }

  /** The position in `0..n-1` that the point `x` of [0, n) falls on. */
  function Position(x: real, n: nat): (pos: nat)
    requires 0.0 <= x < n as real
    ensures pos < n && pos as real <= x < pos as real + 1.0
  {
    x.Floor
  }

  /** Scales the target to a point of [0, total). */
  function Scaled(target: real, total: real): (x: real)
    requires 0.0 <= target < 1.0 && total > 0.0
    ensures x == target * total && 0.0 <= x < total
  {
    ProductBelow(target, total);
    target * total
  }

  lemma ProductBelow(target: real, total: real)
    requires 0.0 <= target < 1.0 && total > 0.0
    ensures 0.0 <= target * total < total
  {
  }
}
