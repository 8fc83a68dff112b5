/** Checkpointing a table and loading it again. */
module Checkpoint {

  import opened Status
  import opened Selector
  import opened TableSpec

  // ---------------------------------------------------------------------
  // Selector order follows insertion time
  // ---------------------------------------------------------------------

  /** A FIFO list is sorted by insertion time, a LIFO list the other way. */
  function Rank(sel: Selector, item: Item): int {
    if sel.Lifo? then -(item.insertedAt as int) else item.insertedAt
  }

  ghost predicate Sorted(ranks: map<Key, int>, keys: seq<Key>) {
    && (forall k :: k in keys ==> k in ranks)
    && forall i, j :: 0 <= i < j < |keys| ==> ranks[keys[i]] < ranks[keys[j]]
  }

  ghost function Ranks(sel: Selector, data: map<Key, Item>): map<Key, int> {
    map k | k in data :: Rank(sel, data[k])
  }

  ghost predicate InOrder(sel: Selector, data: map<Key, Item>) {
    !sel.Ranked? ==> Sorted(Ranks(sel, data), sel.keys)
  }

  /** No two items were inserted at the same time. */
  ghost predicate DistinctTimes(data: map<Key, Item>) {
    forall j, k :: j in data && k in data && j != k ==> data[j].insertedAt != data[k].insertedAt
  }

  /** The table's lists are in order of insertion, and every resident item was
      inserted before `now`, at a time of its own. */
  ghost predicate Timely(t: Table, now: nat) {
    && InOrder(t.sampler, t.data) && InOrder(t.remover, t.data)
    && DistinctTimes(t.data)
    && forall k :: k in t.data ==> t.data[k].insertedAt < now
  }

  lemma SortedSubset(ranks: map<Key, int>, ranks': map<Key, int>, keys: seq<Key>)
    requires Sorted(ranks, keys)
    requires forall k :: k in keys ==> k in ranks' && ranks'[k] == ranks[k]
    ensures Sorted(ranks', keys)
  {
  }

  lemma {:induction false} WithoutSorted(ranks: map<Key, int>, keys: seq<Key>, k: Key)
    requires Sorted(ranks, keys)
    ensures Sorted(ranks, Without(keys, k))
    ensures forall x :: x in Without(keys, k) ==> x in keys
  {
    if keys != [] {
      var first, rest := keys[0], keys[1..];
      assert keys == [first] + rest;
      assert Sorted(ranks, rest);
      if first != k {
        WithoutSorted(ranks, rest, k);
        forall x | x in Without(rest, k) ensures ranks[first] < ranks[x] {
          assert x in rest;
        }
        SortedCons(ranks, Without(rest, k), first);
      }
    }
  }

  /** Only the times of the items matter for the order. */
  lemma SameTimesSameOrder(sel: Selector, data: map<Key, Item>, sel': Selector, data': map<Key, Item>)
    requires InOrder(sel, data) && sel.Ranked? == sel'.Ranked? && (!sel.Ranked? ==> sel == sel')
    requires SameTimes(data, data')
    ensures InOrder(sel', data')
  {
    if !sel.Ranked? {
      assert Ranks(sel, data) == Ranks(sel', data');
    }
  }

  /** The same keys with the same times. */
  ghost predicate SameTimes(data: map<Key, Item>, data': map<Key, Item>) {
    data.Keys == data'.Keys && forall k :: k in data ==> data[k].insertedAt == data'[k].insertedAt
  }

  lemma TimelyWithSameTimes(t: Table, t': Table, now: nat)
    requires Timely(t, now) && SameTimes(t.data, t'.data)
    requires t.sampler.Ranked? == t'.sampler.Ranked? && (!t.sampler.Ranked? ==> t.sampler == t'.sampler)
    requires t.remover.Ranked? == t'.remover.Ranked? && (!t.remover.Ranked? ==> t.remover == t'.remover)
    ensures Timely(t', now)
  {
    SameTimesSameOrder(t.sampler, t.data, t'.sampler, t'.data);
    SameTimesSameOrder(t.remover, t.data, t'.remover, t'.data);
  }

  lemma UpdateKeepsTime(t: Table, key: Key, priority: real, now: nat)
    requires InStep(t) && Timely(t, now)
    ensures Timely(UpdateItem(t, key, priority), now)
  {
    if key in t.data {
      UpdateKeepsTimes(t.data, key, priority);
      TimelyWithSameTimes(t, UpdateItem(t, key, priority), now);
    }
  }

  lemma UpdateKeepsTimes(data: map<Key, Item>, key: Key, priority: real)
    requires key in data
    ensures SameTimes(data, data[key := data[key].(priority := priority)])
  {
  }

  lemma DeleteKeepsOrder(sel: Selector, data: map<Key, Item>, key: Key)
    requires sel.Valid() && key in sel.Keys() && InOrder(sel, data)
    ensures InOrder(sel.Delete(key), data - {key})
  {
    if !sel.Ranked? {
      var keys := sel.Delete(key).keys;
      WithoutSorted(Ranks(sel, data), sel.keys, key);
      WithoutKeys(sel.keys, key);
      forall k | k in keys ensures k in data - {key} {
        assert k in KeySet(keys);
      }
      SortedSubset(Ranks(sel, data), Ranks(sel.Delete(key), data - {key}), keys);
    }
  }

  lemma DeleteKeepsTime(t: Table, key: Key, now: nat)
    requires InStep(t) && Timely(t, now)
    ensures Timely(DeleteItem(t, key), now)
  {
    if key in t.data {
      DeleteKeepsOrder(t.sampler, t.data, key);
      DeleteKeepsOrder(t.remover, t.data, key);
    }
  }

  lemma SortedSnoc(ranks: map<Key, int>, keys: seq<Key>, k: Key)
    requires Sorted(ranks, keys) && k in ranks
    requires forall x :: x in keys ==> ranks[x] < ranks[k]
    ensures Sorted(ranks, keys + [k])
  {
  }

  lemma SortedCons(ranks: map<Key, int>, keys: seq<Key>, k: Key)
    requires Sorted(ranks, keys) && k in ranks
    requires forall x :: x in keys ==> ranks[k] < ranks[x]
    ensures Sorted(ranks, [k] + keys)
  {
  }

  lemma RankOfOthers(sel: Selector, data: map<Key, Item>, item: Item, k: Key)
    requires k in data && k != item.key
    ensures var ranks' := Ranks(sel, data[item.key := item]);
      k in ranks' && ranks'[k] == Ranks(sel, data)[k] == Rank(sel, data[k])
  {
  }

  lemma RankOfNew(sel: Selector, data: map<Key, Item>, item: Item)
    ensures var ranks' := Ranks(sel, data[item.key := item]);
      item.key in ranks' && ranks'[item.key] == Rank(sel, item)
  {
  }

  /** The keys that were there are sorted as before, and the new one comes last in
      time. */
  lemma OthersStaySorted(sel: Selector, data: map<Key, Item>, item: Item)
    requires !sel.Ranked? && sel.Keys() == data.Keys && item.key !in data && InOrder(sel, data)
    ensures Sorted(Ranks(sel, data[item.key := item]), sel.keys)
    ensures forall k :: k in sel.keys ==> k in data
  {
    forall k | k in sel.keys
      ensures k in data && k in Ranks(sel, data[item.key := item])
      ensures Ranks(sel, data[item.key := item])[k] == Ranks(sel, data)[k]
    {
      assert k in KeySet(sel.keys);
      RankOfOthers(sel, data, item, k);
    }
    SortedSubset(Ranks(sel, data), Ranks(sel, data[item.key := item]), sel.keys);
  }

  lemma InsertKeepsOrder(sel: Selector, data: map<Key, Item>, item: Item)
    requires sel.Keys() == data.Keys && item.key !in data && InOrder(sel, data)
    requires forall k :: k in data ==> data[k].insertedAt < item.insertedAt
    ensures InOrder(sel.Insert(item.key, item.priority), data[item.key := item])
  {
    if !sel.Ranked? {
      var ranks' := Ranks(sel, data[item.key := item]);
      OthersStaySorted(sel, data, item);
      RankOfNew(sel, data, item);
      forall k | k in sel.keys
        ensures if sel.Fifo? then ranks'[k] < ranks'[item.key] else ranks'[item.key] < ranks'[k]
      {
        RankOfOthers(sel, data, item, k);
      }
      if sel.Fifo? {
        SortedSnoc(ranks', sel.keys, item.key);
      } else {
        SortedCons(ranks', sel.keys, item.key);
      }
      KindDecidesRanks(sel, sel.Insert(item.key, item.priority), data[item.key := item]);
    }
  }

  lemma KindDecidesRanks(a: Selector, b: Selector, data: map<Key, Item>)
    requires a.Lifo? == b.Lifo?
    ensures Ranks(a, data) == Ranks(b, data)
  {
  }

  lemma AddKeepsTime(t: Table, item: Item, now: nat, later: nat)
    requires InStep(t) && Timely(t, now) && item.key !in t.data && now < later
    ensures Timely(AddItem(t, item, now), later)
  {
    InsertKeepsOrder(t.sampler, t.data, item.(insertedAt := now));
    InsertKeepsOrder(t.remover, t.data, item.(insertedAt := now));
  }

  lemma CountKeepsTime(t: Table, key: Key, now: nat)
    requires key in t.data && Timely(t, now)
    ensures Timely(CountSample(t, key), now)
  {
    assert SameTimes(t.data, CountSample(t, key).data);
    TimelyWithSameTimes(t, CountSample(t, key), now);
  }

  lemma InsertKeepsTime(t: Table, item: Item, now: nat, evicted: Key, later: nat)
    requires InStep(t) && Timely(t, now) && now < later
    ensures Timely(InsertOrAssign(t, item, now, evicted), later)
  {
    if item.key in t.data {
      UpdateKeepsTime(t, item.key, item.priority, later);
    } else {
      AddKeepsTime(t, item, now, later);
      AddItemKeepsInStep(t, item, now);
      DeleteKeepsTime(AddItem(t, item, now), evicted, later);
    }
  }

  lemma SampleKeepsTime(t: Table, key: Key, now: nat)
    requires InStep(t) && key in t.data && Timely(t, now)
    ensures Timely(SampleItem(t, key), now)
  {
    CountKeepsTime(t, key, now);
    CountSampleKeepsInStep(t, key);
    DeleteKeepsTime(CountSample(t, key), key, now);
  }

  lemma StepKeepsTime(t: Table, op: Op, t': Table, now: nat, later: nat)
    requires TableInv(t) && Step(t, op, t') && Timely(t, now) && now <= later
    requires op.Insert? ==> op.now == now < later
    ensures Timely(t', later)
  {
    match op
    case Insert(item, _, evicted) => InsertKeepsTime(t, item, now, evicted, later);
    case Sample(key) => SampleKeepsTime(t, key, later);
    case Delete(key) => DeleteKeepsTime(t, key, later);
    case Update(key, priority) => UpdateKeepsTime(t, key, priority, later);
    case Reset => EmptyIsTimely(t, later);
  }

  lemma EmptyIsTimely(t: Table, now: nat)
    ensures Timely(ResetTable(t), now)
  {
  }

  /** `clock[i]` is the time at which step `i` runs; the clock always advances. */
  ghost predicate Clocked(ops: seq<Op>, clock: seq<nat>) {
    && |clock| == |ops| + 1
    && (forall i, j :: 0 <= i < j < |clock| ==> clock[i] < clock[j])
    && forall i :: 0 <= i < |ops| && ops[i].Insert? ==> ops[i].now == clock[i]
  }

  lemma RunStepKeepsTime(trace: seq<Table>, ops: seq<Op>, clock: seq<nat>, n: nat)
    requires TableSpec.IsRun(trace, ops) && Clocked(ops, clock) && 0 < n < |trace|
    requires TableInv(trace[n - 1]) && Timely(trace[n - 1], clock[n - 1])
    ensures Timely(trace[n], clock[n])
  {
    RunStep(trace, ops, n);
    assert ops[n - 1].Insert? ==> ops[n - 1].now == clock[n - 1];
    StepKeepsTime(trace[n - 1], ops[n - 1], trace[n], clock[n - 1], clock[n]);
  }

  lemma {:induction false} RunKeepsTime(trace: seq<Table>, ops: seq<Op>, clock: seq<nat>, n: nat)
    requires TableSpec.IsRun(trace, ops) && Clocked(ops, clock) && n < |trace|
    ensures Timely(trace[n], clock[n])
  {
    if n == 0 {
      EmptyIsTimely(trace[0], clock[0]);
    } else {
      RunKeepsInv(trace, ops, n - 1);
      RunKeepsTime(trace, ops, clock, n - 1);
      RunStepKeepsTime(trace, ops, clock, n);
    }
  }

  // ---------------------------------------------------------------------
  // Writing and loading
  // ---------------------------------------------------------------------

  /** The items of a checkpoint: all items of the table, sorted by time. */
  ghost predicate IsCheckpoint(t: Table, items: seq<Item>) {
    && |items| == |t.data|
    && (forall i :: 0 <= i < |items| ==> items[i].key in t.data && t.data[items[i].key] == items[i])
    && (forall i, j :: 0 <= i < j < |items| ==> items[i].key != items[j].key)
    && (forall i, j :: 0 <= i < j < |items| ==> items[i].insertedAt <= items[j].insertedAt)
  }

  /** The table that InitializeFromCheckpoint prepares: empty, but with the
      counters of the limiter restored. */
  function Prepared(t: Table): Table {
    t.(sampler := t.sampler.Clear(), remover := t.remover.Clear(), data := map[])
  }

  datatype Loaded = Loaded(status: Status, table: Table)

  /** InsertCheckpointItem. */
  function LoadItem(t: Table, item: Item): Loaded
    requires InStep(t)
  {
    if |t.data| + 1 > t.maxSize then Loaded(FailedPrecondition, t)
    else if item.key in t.data then Loaded(FailedPrecondition, t)
    else Loaded(Ok, AddItem(t, item, item.insertedAt))
  }

  function LoadAll(t: Table, items: seq<Item>): Loaded
    requires InStep(t)
    decreases items
  {
    if items == [] then Loaded(Ok, t)
    else
      var first := LoadItem(t, items[0]);
      if first.status != Ok then first
      else
        AddItemKeepsInStep(t, items[0], items[0].insertedAt);
        LoadAll(first.table, items[1..])
  }

  /** Ever later items with different keys, none of them before `from`. */
  ghost predicate Ascending(items: seq<Item>, from: nat) {
    && (forall i :: 0 <= i < |items| ==> from <= items[i].insertedAt)
    && forall i, j :: 0 <= i < j < |items| ==>
         items[i].key != items[j].key && items[i].insertedAt < items[j].insertedAt
  }

  /** `r` is `t` with the items added, and its lists are in order. */
  ghost predicate IsLoaded(t: Table, items: seq<Item>, r: Table) {
    && InStep(r) && InOrder(r.sampler, r.data) && InOrder(r.remover, r.data)
    && r == t.(data := r.data, sampler := r.sampler, remover := r.remover)
    && SameKind(t.sampler, r.sampler) && SameKind(t.remover, r.remover)
    && |r.data| == |t.data| + |items|
    && (forall k :: k in t.data ==> k in r.data && r.data[k] == t.data[k])
    && (forall i :: 0 <= i < |items| ==> items[i].key in r.data && r.data[items[i].key] == items[i])
  }

  predicate SameKind(a: Selector, b: Selector) {
    a.Fifo? == b.Fifo? && a.Lifo? == b.Lifo?
  }

  lemma AscendingTail(items: seq<Item>, from: nat)
    requires Ascending(items, from) && items != []
    ensures Ascending(items[1..], items[0].insertedAt + 1) && items == [items[0]] + items[1..]
    ensures forall i :: 0 <= i < |items[1..]| ==> items[1..][i] in items && items[1..][i].key != items[0].key
  {
  }

  lemma LoadFirst(t: Table, items: seq<Item>)
    requires InStep(t) && items != [] && items[0].key !in t.data && |t.data| + 1 <= t.maxSize
    ensures InStep(AddItem(t, items[0], items[0].insertedAt))
    ensures LoadAll(t, items) == LoadAll(AddItem(t, items[0], items[0].insertedAt), items[1..])
  {
    AddItemKeepsInStep(t, items[0], items[0].insertedAt);
  }

  lemma AddForLoading(t: Table, item: Item, from: nat)
    requires InStep(t) && Timely(t, from) && from <= item.insertedAt && item.key !in t.data
    ensures var t' := AddItem(t, item, item.insertedAt);
      && Timely(t', item.insertedAt + 1)
      && |t'.data| == |t.data| + 1 && t'.maxSize == t.maxSize
      && t'.data.Keys == t.data.Keys + {item.key}
  {
    AddItemKeepsInStep(t, item, item.insertedAt);
    AddKeepsTime(t, item, item.insertedAt, item.insertedAt + 1);
  }

  /** Loading never meets a full table or a known key, and loads every item. */
  lemma {:induction false} LoadAllSucceeds(t: Table, items: seq<Item>, from: nat)
    requires InStep(t) && Timely(t, from) && Ascending(items, from)
    requires forall x :: x in items ==> x.key !in t.data
    requires |t.data| + |items| <= t.maxSize
    ensures LoadAll(t, items).status == Ok
    ensures IsLoaded(t, items, LoadAll(t, items).table)
    decreases items
  {
    if items != [] {
      var first, rest := items[0], items[1..];
      AscendingTail(items, from);
      LoadFirst(t, items);
      AddForLoading(t, first, from);
      var t' := AddItem(t, first, first.insertedAt);
      LoadAllSucceeds(t', rest, first.insertedAt + 1);
      AddFacts(t, first);
      LoadedCons(t, first, t', rest, LoadAll(t', rest).table);
    }
  }

  lemma AddFacts(t: Table, item: Item)
    requires InStep(t) && item.key !in t.data
    ensures var t' := AddItem(t, item, item.insertedAt);
      && t'.data == t.data[item.key := item] && |t'.data| == |t.data| + 1
      && t' == t.(data := t'.data, sampler := t'.sampler, remover := t'.remover)
      && SameKind(t.sampler, t'.sampler) && SameKind(t.remover, t'.remover)
  {
    AddItemKeepsInStep(t, item, item.insertedAt);
    assert item.(insertedAt := item.insertedAt) == item;
  }

  lemma LoadedCons(t: Table, first: Item, t': Table, rest: seq<Item>, r: Table)
    requires first.key !in t.data && IsLoaded(t', rest, r)
    requires t'.data == t.data[first.key := first] && |t'.data| == |t.data| + 1
    requires t' == t.(data := t'.data, sampler := t'.sampler, remover := t'.remover)
    requires SameKind(t.sampler, t'.sampler) && SameKind(t.remover, t'.remover)
    ensures IsLoaded(t, [first] + rest, r)
  {
    assert t'.data[first.key] == first;
    forall k | k in t.data ensures k in r.data && r.data[k] == t.data[k] {
      assert k in t'.data;
    }
  }

  // ---------------------------------------------------------------------
  // Round trip
  // ---------------------------------------------------------------------

  lemma {:induction false} SortedUnique(ranks: map<Key, int>, a: seq<Key>, b: seq<Key>)
    requires Sorted(ranks, a) && Sorted(ranks, b)
    requires KeySet(a) == KeySet(b)
    ensures a == b
  {
    EmptyIffNoKeys(a);
    EmptyIffNoKeys(b);
    if a != [] {
      assert a[0] in KeySet(b) && b[0] in KeySet(a);
      SmallestFirst(ranks, a, b[0]);
      SmallestFirst(ranks, b, a[0]);
      SortedTail(ranks, a);
      SortedTail(ranks, b);
      SortedUnique(ranks, a[1..], b[1..]);
      assert a == [a[0]] + a[1..] && b == [b[0]] + b[1..];
    }
  }

  lemma EmptyIffNoKeys(keys: seq<Key>)
    ensures keys == [] <==> KeySet(keys) == {}
  {
    if keys != [] {
      assert keys[0] in KeySet(keys);
    }
  }

  lemma SmallestFirst(ranks: map<Key, int>, keys: seq<Key>, k: Key)
    requires Sorted(ranks, keys) && k in keys
    ensures k == keys[0] || ranks[keys[0]] < ranks[k]
  {
  }

  lemma SortedTail(ranks: map<Key, int>, keys: seq<Key>)
    requires Sorted(ranks, keys) && keys != []
    ensures Sorted(ranks, keys[1..])
    ensures KeySet(keys[1..]) == KeySet(keys) - {keys[0]}
  {
    assert keys == [keys[0]] + keys[1..];
    assert keys[0] !in keys[1..];
  }

  /** The data determines the selector, once its kind is known. */
  lemma SelectorDetermined(a: Selector, b: Selector, data: map<Key, Item>)
    requires Mirrors(a, data) && InOrder(a, data)
    requires Mirrors(b, data) && InOrder(b, data)
    requires SameKind(a, b)
    ensures a == b
  {
    if a.Ranked? {
      assert a.priorities == b.priorities;
    } else {
      assert Ranks(a, data) == Ranks(b, data);
      SortedUnique(Ranks(a, data), a.keys, b.keys);
    }
  }

  lemma EqualBySize(a: map<Key, Item>, b: map<Key, Item>, items: seq<Item>)
    requires |a| == |b| == |items|
    requires forall i, j :: 0 <= i < j < |items| ==> items[i].key != items[j].key
    requires forall i :: 0 <= i < |items| ==> items[i].key in a && a[items[i].key] == items[i]
    requires forall i :: 0 <= i < |items| ==> items[i].key in b && b[items[i].key] == items[i]
    ensures a == b
  {
    var keys := seq(|items|, i requires 0 <= i < |items| => items[i].key);
    DistinctIffCount(keys);
    SubsetOfSameSize(KeySet(keys), a.Keys);
    SubsetOfSameSize(KeySet(keys), b.Keys);
    forall k | k in a ensures a[k] == b[k] {
      assert k in KeySet(keys);
    }
  }

  lemma SubsetOfSameSize(s: set<Key>, t: set<Key>)
    requires s <= t && |s| == |t|
    ensures s == t
  {
    assert t == s + (t - s);
  }

  lemma PreparedFacts(t: Table)
    ensures var e := Prepared(t);
      && InStep(e) && Timely(e, 0) && e.data == map[]
      && SameKind(e.sampler, t.sampler) && SameKind(e.remover, t.remover)
      && e == t.(data := e.data, sampler := e.sampler, remover := e.remover)
  {
  }

  lemma CheckpointAscends(t: Table, items: seq<Item>)
    requires DistinctTimes(t.data) && IsCheckpoint(t, items)
    ensures Ascending(items, 0)
  {
    forall i, j | 0 <= i < j < |items|
      ensures items[i].insertedAt < items[j].insertedAt
    {
      assert t.data[items[i].key].insertedAt != t.data[items[j].key].insertedAt;
    }
  }

  /** A table with the same items, kinds and parameters, in order, is the table. */
  lemma LoadedIsOriginal(t: Table, empty: Table, items: seq<Item>, r: Table)
    requires InStep(t) && InOrder(t.sampler, t.data) && InOrder(t.remover, t.data) && IsCheckpoint(t, items)
    requires empty.data == map[] && empty == t.(data := empty.data, sampler := empty.sampler, remover := empty.remover)
    requires SameKind(empty.sampler, t.sampler) && SameKind(empty.remover, t.remover)
    requires IsLoaded(empty, items, r)
    ensures r == t
  {
    EqualBySize(r.data, t.data, items);
    SelectorDetermined(r.sampler, t.sampler, t.data);
    SelectorDetermined(r.remover, t.remover, t.data);
  }

  lemma LoadingRestores(t: Table, now: nat, items: seq<Item>)
    requires TableInv(t) && Timely(t, now) && IsCheckpoint(t, items)
    ensures LoadAll(Prepared(t), items) == Loaded(Ok, t)
  {
    PreparedFacts(t);
    CheckpointAscends(t, items);
    LoadAllSucceeds(Prepared(t), items, 0);
    LoadedIsOriginal(t, Prepared(t), items, LoadAll(Prepared(t), items).table);
  }

  /** Checkpoint round trip: on every run with an advancing clock, loading the
      checkpoint of a table gives back the very same table: items, selectors with their
      order, and limiter. */
  lemma RoundTrip(trace: seq<Table>, ops: seq<Op>, clock: seq<nat>, n: nat, items: seq<Item>)
    requires TableSpec.IsRun(trace, ops) && Clocked(ops, clock) && n < |trace|
    requires IsCheckpoint(trace[n], items)
    ensures LoadAll(Prepared(trace[n]), items) == Loaded(Ok, trace[n])
  {
    RunKeepsInv(trace, ops, n);
    RunKeepsTime(trace, ops, clock, n);
    LoadingRestores(trace[n], clock[n], items);
  }
}
