/** The contents of a `Table` as a value, with the effect of every operation that
    runs under the table's lock. */
module TableSpec {

  import opened Status
  import opened Selector
  import opened RateLimiter

  type Episode = nat

  /** An item; `episodes` lists the episode of each of its chunks, and `size` is the
      number of bytes in them. */
  datatype Item = Item(key: Key, priority: real, timesSampled: nat, episodes: seq<Episode>, size: nat, insertedAt: nat)

  datatype Table = Table(
    sampler: Selector,
    remover: Selector,
    maxSize: nat,
    maxTimesSampled: int,
    data: map<Key, Item>,
    limiter: Limiter)

  // ---------------------------------------------------------------------
  // Episode references
  // ---------------------------------------------------------------------

  ghost function Pick(data: map<Key, Item>): Key
    requires data != map[]
  {
    var k :| k in data; k
  }

  /** The chunk references of all items, counted per episode. */
  ghost function AllRefs(data: map<Key, Item>): multiset<Episode>
    decreases |data|
  {
    if data == map[] then multiset{}
    else
      var k := Pick(data);
      multiset(data[k].episodes) + AllRefs(data - {k})
  }

  lemma {:induction false} AllRefsRemove(data: map<Key, Item>, k: Key)
    requires k in data
    ensures AllRefs(data) == multiset(data[k].episodes) + AllRefs(data - {k})
    decreases |data|
  {
    var p := Pick(data);
    if p != k {
      var withoutP, withoutK := data - {p}, data - {k};
      AllRefsRemove(withoutP, k);
      AllRefsRemove(withoutK, p);
      assert withoutP - {k} == withoutK - {p};
      Swapped(multiset(data[p].episodes), multiset(data[k].episodes), AllRefs(withoutP - {k}));
    }
  }

  lemma Swapped(a: multiset<Episode>, b: multiset<Episode>, c: multiset<Episode>)
    ensures a + (b + c) == b + (a + c)
  {
  }

  lemma AllRefsAdd(data: map<Key, Item>, item: Item)
    requires item.key !in data
    ensures AllRefs(data[item.key := item]) == AllRefs(data) + multiset(item.episodes)
  {
    AllRefsRemove(data[item.key := item], item.key);
    assert data[item.key := item] - {item.key} == data;
  }

  /** Replacing an item by one with the same chunks keeps the counts. */
  lemma AllRefsReplace(data: map<Key, Item>, item: Item)
    requires item.key in data && data[item.key].episodes == item.episodes
    ensures AllRefs(data[item.key := item]) == AllRefs(data)
  {
    AllRefsRemove(data, item.key);
    AllRefsRemove(data[item.key := item], item.key);
    assert data[item.key := item] - {item.key} == data - {item.key};
  }

  // ---------------------------------------------------------------------
  // The joint invariant
  // ---------------------------------------------------------------------

  /** The selector holds exactly the keys of `data`, with their priorities. */
  ghost predicate Mirrors(sel: Selector, data: map<Key, Item>) {
    && sel.Valid()
    && sel.Keys() == data.Keys
    && (sel.Ranked? ==> forall k :: k in data ==> sel.priorities[k] == data[k].priority)
  }

  /** The item map and both selectors are in step. */
  ghost predicate InStep(t: Table) {
    && Mirrors(t.sampler, t.data)
    && Mirrors(t.remover, t.data)
    && (forall k :: k in t.data ==> t.data[k].key == k)
  }

  ghost predicate TableInv(t: Table) {
    && InStep(t)
    && ValidConfig(t.limiter.config)
    && t.limiter.inserts - t.limiter.deletes == |t.data|
    && |t.data| <= t.maxSize
  }

  /** No resident item has used up its samples. */
  ghost predicate BelowMax(t: Table) {
    t.maxTimesSampled >= 1 ==> AllBelow(t.data, t.maxTimesSampled)
  }

  ghost predicate AllBelow(data: map<Key, Item>, max: int) {
    forall k :: k in data ==> data[k].timesSampled < max
  }

  function Empty(sampler: Selector, remover: Selector, maxSize: nat, maxTimesSampled: int, config: Config): Table {
    Table(sampler.Clear(), remover.Clear(), maxSize, maxTimesSampled, map[], Fresh(config))
  }

  // ---------------------------------------------------------------------
  // Operations
  // ---------------------------------------------------------------------

  function UpdateItem(t: Table, key: Key, priority: real): Table
    requires InStep(t)
  {
    if key !in t.data then t
    else t.(data := t.data[key := t.data[key].(priority := priority)],
            sampler := t.sampler.Update(key, priority),
            remover := t.remover.Update(key, priority))
  }

  function DeleteItem(t: Table, key: Key): Table
    requires InStep(t)
  {
    if key !in t.data then t
    else
      t.(data := t.data - {key},
         sampler := t.sampler.Delete(key),
         remover := t.remover.Delete(key),
         limiter := t.limiter.(deletes := t.limiter.deletes + 1))
  }

  /** The table just after a fresh item went in, before anything is evicted. */
  function AddItem(t: Table, item: Item, now: nat): Table
    requires InStep(t) && item.key !in t.data
  {
    t.(data := t.data[item.key := item.(insertedAt := now)],
       sampler := t.sampler.Insert(item.key, item.priority),
       remover := t.remover.Insert(item.key, item.priority))
  }

  ghost predicate MayEvict(t: Table, item: Item, now: nat, evicted: Key)
    requires InStep(t)
  {
    item.key !in t.data && |t.data| + 1 > t.maxSize ==> AddItem(t, item, now).remover.MaySample(evicted)
  }

  /** Evicts the given key if there are too many items. */
  function Fit(t: Table, evicted: Key): Table
    requires InStep(t)
  {
    if |t.data| > t.maxSize then DeleteItem(t, evicted) else t
  }

  function CountInsert(t: Table): Table {
    t.(limiter := t.limiter.(inserts := t.limiter.inserts + 1))
  }

  /** InsertOrAssignInternal: an existing key is only updated; a fresh item may
      push out the key that the remover picks, possibly itself. */
  function InsertOrAssign(t: Table, item: Item, now: nat, evicted: Key): Table
    requires InStep(t)
  {
    if item.key in t.data then UpdateItem(t, item.key, item.priority)
    else
      AddItemKeepsInStep(t, item, now);
      CountInsert(Fit(AddItem(t, item, now), evicted))
  }

  /** The steps of an insert of a fresh item, taken one by one. */
  lemma CountedInsert(t: Table, item: Item, now: nat, evicted: Key)
    requires InStep(t) && item.key !in t.data
    ensures InStep(AddItem(t, item, now)) && |AddItem(t, item, now).data| == |t.data| + 1
    ensures InsertOrAssign(t, item, now, evicted) == CountInsert(Fit(AddItem(t, item, now), evicted))
  {
    AddItemKeepsInStep(t, item, now);
  }

  function CountSample(t: Table, key: Key): Table
    requires key in t.data
  {
    var item := t.data[key];
    t.(data := t.data[key := item.(timesSampled := item.timesSampled + 1)])
  }

  lemma CountSampleKeepsInStep(t: Table, key: Key)
    requires InStep(t) && key in t.data
    ensures InStep(CountSample(t, key)) && |CountSample(t, key).data| == |t.data|
  {
    assert CountSample(t, key).data.Keys == t.data.Keys;
  }

  /** SampleInternal, for a key that the sampler picked: the item is deleted when
      it has now been sampled the maximum number of times. */
  function SampleItem(t: Table, key: Key): Table
    requires InStep(t) && key in t.data
  {
    CountSampleKeepsInStep(t, key);
    var t' := CountSample(t, key);
    if t'.data[key].timesSampled == t.maxTimesSampled then DeleteItem(t', key) else t'
  }

  ghost function DeleteAll(t: Table, keys: seq<Key>): Table
    requires InStep(t)
    decreases keys
  {
    if keys == [] then t
    else
      DeleteKeepsInStep(t, keys[0]);
      DeleteAll(DeleteItem(t, keys[0]), keys[1..])
  }

  ghost function UpdateAll(t: Table, updates: seq<(Key, real)>): Table
    requires InStep(t)
    decreases updates
  {
    if updates == [] then t
    else
      UpdateKeepsInStep(t, updates[0].0, updates[0].1);
      UpdateAll(UpdateItem(t, updates[0].0, updates[0].1), updates[1..])
  }

  function ResetTable(t: Table): Table {
    Empty(t.sampler, t.remover, t.maxSize, t.maxTimesSampled, t.limiter.config)
  }

  lemma UpdateKeepsInStep(t: Table, key: Key, priority: real)
    requires InStep(t)
    ensures InStep(UpdateItem(t, key, priority))
    ensures UpdateItem(t, key, priority).data.Keys == t.data.Keys
  {
    if key in t.data {
      UpdateKeys(t.sampler, key, priority);
      UpdateKeys(t.remover, key, priority);
    }
  }

  lemma DeleteKeepsInStep(t: Table, key: Key)
    requires InStep(t)
    ensures InStep(DeleteItem(t, key))
    ensures DeleteItem(t, key).data == t.data - {key}
  {
    if key in t.data {
      DeleteKeys(t.sampler, key);
      DeleteKeys(t.remover, key);
    }
  }

  lemma AddItemKeepsInStep(t: Table, item: Item, now: nat)
    requires InStep(t) && item.key !in t.data
    ensures InStep(AddItem(t, item, now))
    ensures |AddItem(t, item, now).data| == |t.data| + 1
  {
    var added := item.(insertedAt := now);
    InsertMirrors(t.sampler, t.data, added);
    InsertMirrors(t.remover, t.data, added);
    AddedKeys(t.data, added);
  }

  lemma AddedKeys(data: map<Key, Item>, item: Item)
    requires item.key !in data
    ensures data[item.key := item].Keys == data.Keys + {item.key} && |data[item.key := item]| == |data| + 1
  {
    assert data[item.key := item].Keys == data.Keys + {item.key};
  }

  lemma InsertMirrors(sel: Selector, data: map<Key, Item>, item: Item)
    requires Mirrors(sel, data) && item.key !in data
    ensures Mirrors(sel.Insert(item.key, item.priority), data[item.key := item])
  {
    InsertKeys(sel, item.key, item.priority);
    AddedKeys(data, item);
  }

  // ---------------------------------------------------------------------
  // What the operations do, item by item
  // ---------------------------------------------------------------------

  /** A known key has the new priority, in the map and in every ranked selector. Nothing
      else changes. */
  ghost predicate Reprioritized(t: Table, key: Key, priority: real, t': Table) {
    && t'.data.Keys == t.data.Keys
    && (forall k :: k in t.data ==> t'.data[k] == if k == key then t.data[k].(priority := priority) else t.data[k])
    && Reranks(t.sampler, key, priority, t'.sampler) && Reranks(t.remover, key, priority, t'.remover)
    && t'.limiter == t.limiter && t'.maxSize == t.maxSize && t'.maxTimesSampled == t.maxTimesSampled
  }

  lemma UpdateReprioritizes(t: Table, key: Key, priority: real)
    requires InStep(t)
    ensures Reprioritized(t, key, priority, UpdateItem(t, key, priority))
  {
    UpdateKeepsInStep(t, key, priority);
  }

  /** The given keys are gone, from the map and both selectors, and counted as deleted if
      they were there. Nothing else changes. */
  ghost predicate Removed(t: Table, gone: set<Key>, t': Table) {
    && (forall k :: k in t'.data <==> k in t.data && k !in gone)
    && (forall k :: k in t'.data ==> t'.data[k] == t.data[k])
    && Loses(t.sampler, gone, t'.sampler) && Loses(t.remover, gone, t'.remover)
    && t'.limiter == t.limiter.(deletes := t'.limiter.deletes)
    && t'.limiter.deletes - t.limiter.deletes == |t.data| - |t'.data|
    && t'.maxSize == t.maxSize && t'.maxTimesSampled == t.maxTimesSampled
  }

  lemma DeleteRemoves(t: Table, key: Key)
    requires InStep(t)
    ensures Removed(t, {key}, DeleteItem(t, key))
  {
    DeleteMovesTogether(t, key);
    if key in t.data {
      DeleteLoses(t.sampler, key);
      DeleteLoses(t.remover, key);
    } else {
      LosesNothing(t.sampler, {key});
      LosesNothing(t.remover, {key});
    }
  }

  lemma RemovedMore(a: Table, x: set<Key>, b: Table, y: set<Key>, c: Table)
    requires Removed(a, x, b) && Removed(b, y, c)
    ensures Removed(a, x + y, c)
  {
    LosesMore(a.sampler, x, b.sampler, y, c.sampler);
    LosesMore(a.remover, x, b.remover, y, c.remover);
  }

  function KeysIn(keys: seq<Key>): set<Key> {
    set k | k in keys
  }

  lemma {:induction false} DeleteAllRemoves(t: Table, keys: seq<Key>)
    requires InStep(t)
    ensures InStep(DeleteAll(t, keys)) && Removed(t, KeysIn(keys), DeleteAll(t, keys))
    decreases keys
  {
    if keys == [] {
      LosesNothing(t.sampler, KeysIn(keys));
      LosesNothing(t.remover, KeysIn(keys));
    } else {
      var t' := DeleteItem(t, keys[0]);
      DeleteKeepsInStep(t, keys[0]);
      DeleteRemoves(t, keys[0]);
      DeleteAllRemoves(t', keys[1..]);
      RemovedMore(t, {keys[0]}, t', KeysIn(keys[1..]), DeleteAll(t, keys));
      assert KeysIn(keys) == {keys[0]} + KeysIn(keys[1..]);
    }
  }

  /** Update `i` is the last one for the key. */
  ghost predicate LastFor(updates: seq<(Key, real)>, key: Key, i: nat) {
    i < |updates| && updates[i].0 == key && forall j :: i < j < |updates| ==> updates[j].0 != key
  }

  ghost predicate Mentions(updates: seq<(Key, real)>, key: Key) {
    exists i :: 0 <= i < |updates| && updates[i].0 == key
  }

  /** Every key that is there has the priority of its last update; keys without one and
      all other fields are as they were. */
  ghost predicate AllReprioritized(data: map<Key, Item>, updates: seq<(Key, real)>, data': map<Key, Item>) {
    && data'.Keys == data.Keys
    && (forall k :: k in data ==> data'[k] == data[k].(priority := data'[k].priority))
    && (forall k :: k in data && !Mentions(updates, k) ==> data'[k] == data[k])
    && (forall k, i: nat :: k in data && LastFor(updates, k, i) ==> data'[k].priority == updates[i].1)
  }

  /** What a list of updates leaves alone. */
  ghost predicate SameLists(t: Table, t': Table) {
    && (t.sampler.Ranked? <==> t'.sampler.Ranked?) && (!t.sampler.Ranked? ==> t'.sampler == t.sampler)
    && (t.remover.Ranked? <==> t'.remover.Ranked?) && (!t.remover.Ranked? ==> t'.remover == t.remover)
    && t'.limiter == t.limiter && t'.maxSize == t.maxSize && t'.maxTimesSampled == t.maxTimesSampled
  }

  lemma {:induction false} UpdateAllReprioritizes(t: Table, updates: seq<(Key, real)>)
    requires InStep(t)
    ensures InStep(UpdateAll(t, updates))
    ensures AllReprioritized(t.data, updates, UpdateAll(t, updates).data) && SameLists(t, UpdateAll(t, updates))
    decreases updates
  {
    if updates != [] {
      var (key, priority) := updates[0];
      var rest := updates[1..];
      var t' := UpdateItem(t, key, priority);
      UpdateKeepsInStep(t, key, priority);
      UpdateReprioritizes(t, key, priority);
      UpdateAllReprioritizes(t', rest);
      FirstReprioritized(t.data, key, priority, t'.data, rest, UpdateAll(t, updates).data);
      assert updates == [(key, priority)] + rest;
    }
  }

  lemma FirstReprioritized(a: map<Key, Item>, key: Key, priority: real, b: map<Key, Item>,
                           rest: seq<(Key, real)>, c: map<Key, Item>)
    requires b.Keys == a.Keys && AllReprioritized(b, rest, c)
    requires forall k :: k in a ==> b[k] == if k == key then a[k].(priority := priority) else a[k]
    ensures AllReprioritized(a, [(key, priority)] + rest, c)
  {
    var updates := [(key, priority)] + rest;
    forall k | k in a
      ensures c[k] == a[k].(priority := c[k].priority)
      ensures !Mentions(updates, k) ==> c[k] == a[k]
      ensures forall i: nat :: LastFor(updates, k, i) ==> c[k].priority == updates[i].1
    {
      FirstUpdate(key, priority, rest, k);
    }
  }

  lemma FirstUpdate(key: Key, priority: real, rest: seq<(Key, real)>, k: Key)
    ensures var updates := [(key, priority)] + rest;
      && (Mentions(updates, k) <==> key == k || Mentions(rest, k))
      && forall i: nat :: LastFor(updates, k, i) ==>
           if i == 0 then key == k && !Mentions(rest, k) && updates[i].1 == priority
           else LastFor(rest, k, i - 1) && updates[i].1 == rest[i - 1].1
  {
    var updates := [(key, priority)] + rest;
    assert forall j :: 0 <= j < |rest| ==> updates[j + 1] == rest[j];
    if Mentions(rest, k) {
      var i :| 0 <= i < |rest| && rest[i].0 == k;
      assert updates[i + 1].0 == k;
    }
    if key == k {
      assert updates[0].0 == k;
    }
  }

  /** The deleted keys are gone, and what is left has the priority of its last update. */
  ghost predicate Mutated(t: Table, deletes: seq<Key>, updates: seq<(Key, real)>, t': Table) {
    && (forall k :: k in t'.data <==> k in t.data && k !in deletes)
    && (forall k :: k in t'.data ==> t'.data[k] == t.data[k].(priority := t'.data[k].priority))
    && (forall k :: k in t'.data && !Mentions(updates, k) ==> t'.data[k] == t.data[k])
    && (forall k, i: nat :: k in t'.data && LastFor(updates, k, i) ==> t'.data[k].priority == updates[i].1)
    && (if t.sampler.Ranked? then t'.sampler.Ranked? else Loses(t.sampler, KeysIn(deletes), t'.sampler))
    && (if t.remover.Ranked? then t'.remover.Ranked? else Loses(t.remover, KeysIn(deletes), t'.remover))
    && t'.limiter == t.limiter.(deletes := t'.limiter.deletes)
    && t'.limiter.deletes - t.limiter.deletes == |t.data| - |t'.data|
    && t'.maxSize == t.maxSize && t'.maxTimesSampled == t.maxTimesSampled
  }

  lemma MutationMutates(t: Table, deletes: seq<Key>, updates: seq<(Key, real)>)
    requires InStep(t)
    ensures InStep(DeleteAll(t, deletes)) && Mutated(t, deletes, updates, UpdateAll(DeleteAll(t, deletes), updates))
  {
    DeleteAllRemoves(t, deletes);
    var d := DeleteAll(t, deletes);
    UpdateAllReprioritizes(d, updates);
    var t' := UpdateAll(d, updates);
    assert |t'.data.Keys| == |d.data.Keys|;
    assert forall k :: k in t'.data ==> d.data[k] == t.data[k];
  }

  /** The item is there with its time of insertion, at the end or the front of a list. If
      the table was full, the key that was picked is gone. */
  ghost predicate Added(t: Table, item: Item, now: nat, evicted: Key, t': Table)
    requires item.key !in t.data
  {
    var gone := if |t.data| + 1 > t.maxSize then {evicted} else {};
    && (forall k :: k in t'.data <==> (k in t.data || k == item.key) && k !in gone)
    && (forall k :: k in t'.data ==> t'.data[k] == if k == item.key then item.(insertedAt := now) else t.data[k])
    && GainsAndLoses(t.sampler, item.key, item.priority, gone, t'.sampler)
    && GainsAndLoses(t.remover, item.key, item.priority, gone, t'.remover)
    && t'.limiter == t.limiter.(inserts := t.limiter.inserts + 1, deletes := t'.limiter.deletes)
    && t'.limiter.deletes - t.limiter.deletes == |t.data| + 1 - |t'.data|
    && t'.maxSize == t.maxSize && t'.maxTimesSampled == t.maxTimesSampled
  }

  lemma InsertAdds(t: Table, item: Item, now: nat, evicted: Key)
    requires InStep(t) && item.key !in t.data
    ensures Added(t, item, now, evicted, InsertOrAssign(t, item, now, evicted))
  {
    var t1 := AddItem(t, item, now);
    var gone := if |t.data| + 1 > t.maxSize then {evicted} else {};
    CountedInsert(t, item, now, evicted);
    FitRemoves(t1, evicted);
    InsertGains(t.sampler, item.key, item.priority, gone, Fit(t1, evicted).sampler);
    InsertGains(t.remover, item.key, item.priority, gone, Fit(t1, evicted).remover);
  }

  lemma FitRemoves(t: Table, evicted: Key)
    requires InStep(t)
    ensures Removed(t, if |t.data| > t.maxSize then {evicted} else {}, Fit(t, evicted))
  {
    if |t.data| > t.maxSize {
      DeleteRemoves(t, evicted);
    } else {
      LosesNothing(t.sampler, {});
      LosesNothing(t.remover, {});
    }
  }

  /** The item counts one more sample, and is removed when that is the last one. */
  ghost predicate Drawn(t: Table, key: Key, t': Table)
    requires key in t.data
  {
    var item := t.data[key].(timesSampled := t.data[key].timesSampled + 1);
    var gone := if item.timesSampled == t.maxTimesSampled then {key} else {};
    && (forall k :: k in t'.data <==> k in t.data && k !in gone)
    && (forall k :: k in t'.data ==> t'.data[k] == if k == key then item else t.data[k])
    && Loses(t.sampler, gone, t'.sampler) && Loses(t.remover, gone, t'.remover)
    && t'.limiter == t.limiter.(deletes := t.limiter.deletes + if gone == {} then 0 else 1)
    && t'.maxSize == t.maxSize && t'.maxTimesSampled == t.maxTimesSampled
  }

  lemma SampleDraws(t: Table, key: Key)
    requires InStep(t) && key in t.data
    ensures Drawn(t, key, SampleItem(t, key))
    ensures CountSample(t, key).data[key] == t.data[key].(timesSampled := t.data[key].timesSampled + 1)
  {
    var t1 := CountSample(t, key);
    CountSampleKeepsInStep(t, key);
    if t1.data[key].timesSampled == t.maxTimesSampled {
      DeleteRemoves(t1, key);
      DeleteMovesTogether(t1, key);
    } else {
      LosesNothing(t.sampler, {});
      LosesNothing(t.remover, {});
    }
  }

  /** Nothing is there, each selector is of its kind, and the counters start at zero. */
  ghost predicate Starts(sampler: Selector, remover: Selector, maxSize: nat, maxTimesSampled: int, config: Config, t: Table)
  {
    && t.data == map[] && Emptied(sampler, t.sampler) && Emptied(remover, t.remover)
    && t.limiter.config == config && t.limiter.inserts == t.limiter.samples == t.limiter.deletes == 0
    && t.maxSize == maxSize && t.maxTimesSampled == maxTimesSampled
  }

  // ---------------------------------------------------------------------
  // Every operation keeps the invariant
  // ---------------------------------------------------------------------

  lemma UpdateKeepsInv(t: Table, key: Key, priority: real)
    requires TableInv(t)
    ensures TableInv(UpdateItem(t, key, priority))
  {
    UpdateKeepsInStep(t, key, priority);
    assert |UpdateItem(t, key, priority).data.Keys| == |t.data.Keys|;
  }

  /** Deleting one key moves the size and the delete counter together. */
  lemma DeleteMovesTogether(t: Table, key: Key)
    requires InStep(t)
    ensures InStep(DeleteItem(t, key))
    ensures |DeleteItem(t, key).data| + DeleteItem(t, key).limiter.deletes == |t.data| + t.limiter.deletes
    ensures |DeleteItem(t, key).data| == |t.data| - if key in t.data then 1 else 0
  {
    DeleteKeepsInStep(t, key);
    assert (t.data - {key}).Keys == t.data.Keys - {key};
  }

  lemma InsertKeepsInv(t: Table, item: Item, now: nat, evicted: Key)
    requires TableInv(t) && MayEvict(t, item, now, evicted)
    ensures TableInv(InsertOrAssign(t, item, now, evicted))
  {
    if item.key in t.data {
      UpdateKeepsInv(t, item.key, item.priority);
    } else {
      AddItemKeepsInStep(t, item, now);
      DeleteMovesTogether(AddItem(t, item, now), evicted);
    }
  }

  lemma SampleKeepsInv(t: Table, key: Key)
    requires TableInv(t) && key in t.data
    ensures TableInv(SampleItem(t, key))
  {
    CountSampleKeepsInStep(t, key);
    DeleteMovesTogether(CountSample(t, key), key);
  }

  lemma {:induction false} DeleteAllKeepsInv(t: Table, keys: seq<Key>)
    requires TableInv(t)
    ensures TableInv(DeleteAll(t, keys))
    decreases keys
  {
    if keys != [] {
      DeleteMovesTogether(t, keys[0]);
      DeleteAllKeepsInv(DeleteItem(t, keys[0]), keys[1..]);
    }
  }

  lemma {:induction false} UpdateAllKeepsInv(t: Table, updates: seq<(Key, real)>)
    requires TableInv(t)
    ensures TableInv(UpdateAll(t, updates))
    decreases updates
  {
    if updates != [] {
      UpdateKeepsInv(t, updates[0].0, updates[0].1);
      UpdateAllKeepsInv(UpdateItem(t, updates[0].0, updates[0].1), updates[1..]);
    }
  }

  // ---------------------------------------------------------------------
  // Whole runs
  // ---------------------------------------------------------------------

  datatype Op =
    | Insert(item: Item, now: nat, evicted: Key)
    | Sample(key: Key)
    | Delete(key: Key)
    | Update(key: Key, priority: real)
    | Reset

  /** The limiter has counted one more sample. */
  function Committed(t: Table): Table {
    t.(limiter := t.limiter.(samples := t.limiter.samples + 1))
  }

  /** Counting the sample before taking it makes no difference. */
  lemma SampleAfterCommit(t: Table, key: Key)
    requires InStep(t) && key in t.data
    ensures SampleItem(Committed(t), key) == Committed(SampleItem(t, key))
  {
    CountSampleKeepsInStep(t, key);
    CountSampleKeepsInStep(Committed(t), key);
  }

  /** The worker inserts and samples only when the limiter permits it, and the
      selectors pick keys as their kind allows. A call of MutateItems is a sequence
      of deletes and updates. */
  ghost predicate Step(t: Table, op: Op, t': Table)
    requires TableInv(t)
  {
    match op
    case Insert(item, now, evicted) =>
      && t.limiter.CanInsert(1) && MayEvict(t, item, now, evicted)
      && t' == InsertOrAssign(t, item, now, evicted)
    case Sample(key) =>
      && t.limiter.CanSample(1) && key in t.data && t.sampler.MaySample(key)
      && t' == Committed(SampleItem(t, key))
    case Delete(key) => t' == DeleteItem(t, key)
    case Update(key, priority) => t' == UpdateItem(t, key, priority)
    case Reset => t' == ResetTable(t)
  }

  lemma StepKeepsInv(t: Table, op: Op, t': Table)
    requires TableInv(t) && Step(t, op, t')
    ensures TableInv(t')
  {
    match op
    case Insert(item, now, evicted) => InsertKeepsInv(t, item, now, evicted);
    case Sample(key) => SampleKeepsInv(t, key);
    case Delete(key) => DeleteMovesTogether(t, key);
    case Update(key, priority) => UpdateKeepsInv(t, key, priority);
    case Reset =>
  }

  ghost predicate StepAt(trace: seq<Table>, ops: seq<Op>, i: nat)
    requires i < |ops| < |trace|
  {
    TableInv(trace[i]) ==> Step(trace[i], ops[i], trace[i + 1])
  }

  /** A path from a table that satisfies the invariant. Steps are described only from
      such states; `RunKeepsInv` shows that there are no others. */
  ghost predicate IsPath(trace: seq<Table>, ops: seq<Op>) {
    && |trace| == |ops| + 1
    && TableInv(trace[0])
    && forall i {:trigger StepAt(trace, ops, i)} :: 0 <= i < |ops| ==> StepAt(trace, ops, i)
  }

  /** A run is a path from an empty table. */
  ghost predicate IsRun(trace: seq<Table>, ops: seq<Op>) {
    IsPath(trace, ops) && trace[0] == ResetTable(trace[0])
  }

  lemma RunStep(trace: seq<Table>, ops: seq<Op>, n: nat)
    requires IsPath(trace, ops) && 0 < n < |trace| && TableInv(trace[n - 1])
    ensures Step(trace[n - 1], ops[n - 1], trace[n])
  {
    assert StepAt(trace, ops, n - 1);
  }

  lemma {:induction false} RunKeepsInv(trace: seq<Table>, ops: seq<Op>, n: nat)
    requires IsPath(trace, ops) && n < |trace|
    ensures TableInv(trace[n])
  {
    if n > 0 {
      RunKeepsInv(trace, ops, n - 1);
      NextKeepsInv(trace, ops, n - 1);
    }
  }

  lemma NextKeepsInv(trace: seq<Table>, ops: seq<Op>, i: nat)
    requires IsPath(trace, ops) && i < |ops| && TableInv(trace[i])
    ensures TableInv(trace[i + 1])
  {
    assert StepAt(trace, ops, i);
    StepKeepsInv(trace[i], ops[i], trace[i + 1]);
  }

  /** Whenever the limiter permits a sample there is an item to sample. */
  lemma PermittedSampleFindsAnItem(trace: seq<Table>, ops: seq<Op>, n: nat) returns (key: Key)
    requires IsPath(trace, ops) && n < |trace| && trace[n].limiter.CanSample(1)
    ensures trace[n].sampler.MaySample(key) && key in trace[n].data
  {
    RunKeepsInv(trace, ops, n);
    assert |trace[n].data| >= 1;
    assert trace[n].data.Keys != {};
    key := SampleExists(trace[n].sampler);
  }

  // ---------------------------------------------------------------------
  // The limiter's corridor, for the table as a whole
  // ---------------------------------------------------------------------

  lemma ExtraDeletesStayInCorridor(l: Limiter, more: nat)
    requires ValidConfig(l.config) && InCorridor(l)
    ensures InCorridor(l.(deletes := l.deletes + more))
  {
    assert l.(deletes := l.deletes + more).Cursor() == l.Cursor();
  }

  lemma InsertMovesLimiter(t: Table, item: Item, now: nat, evicted: Key)
    requires InStep(t) && item.key !in t.data
    ensures var l' := InsertOrAssign(t, item, now, evicted).limiter;
      && l'.deletes >= t.limiter.deletes
      && l' == t.limiter.(inserts := t.limiter.inserts + 1, deletes := l'.deletes)
  {
    AddItemKeepsInStep(t, item, now);
    FitMovesLimiter(AddItem(t, item, now), evicted);
  }

  lemma FitMovesLimiter(t: Table, evicted: Key)
    requires InStep(t)
    ensures var l' := Fit(t, evicted).limiter;
      l'.deletes >= t.limiter.deletes && l' == t.limiter.(deletes := l'.deletes)
  {
  }

  lemma SampleMovesLimiter(t: Table, key: Key)
    requires InStep(t) && key in t.data
    ensures var l' := SampleItem(t, key).limiter;
      l'.deletes >= t.limiter.deletes && l' == t.limiter.(deletes := l'.deletes)
  {
    CountSampleKeepsInStep(t, key);
  }

  lemma MoveStaysInCorridor(l: Limiter, e: Option<Event>, m: Limiter, l': Limiter)
    requires ValidConfig(l.config) && InCorridor(l)
    requires if e.Some? then Moves(l, e.value, m) else m == l
    requires l'.deletes >= m.deletes && l' == m.(deletes := l'.deletes)
    ensures InCorridor(l')
  {
    if e.Some? {
      StepStaysInCorridor(l, e.value, m);
    }
    ExtraDeletesStayInCorridor(m, l'.deletes - m.deletes);
  }

  /** Every step is, for the limiter, at most one permitted insert or sample
      followed by some deletes; or a reset. */
  lemma StepMovesLimiter(t: Table, op: Op, t': Table) returns (e: Option<Event>, m: Limiter)
    requires TableInv(t) && Step(t, op, t')
    ensures if e.Some? then Moves(t.limiter, e.value, m) else m == t.limiter
    ensures t'.limiter.deletes >= m.deletes && t'.limiter == m.(deletes := t'.limiter.deletes)
  {
    var l := t.limiter;
    e, m := None, l;
    match op {
      case Insert(item, now, evicted) =>
        if item.key !in t.data {
          InsertMovesLimiter(t, item, now, evicted);
          e, m := Some(Inserted), l.(inserts := l.inserts + 1);
        }
      case Sample(key) =>
        SampleMovesLimiter(t, key);
        e, m := Some(Sampled), l.(samples := l.samples + 1);
      case Delete(key) =>
      case Update(key, priority) =>
      case Reset =>
        e, m := Some(WasReset), t'.limiter;
    }
  }

  lemma StepStaysInTableCorridor(t: Table, op: Op, t': Table)
    requires TableInv(t) && Step(t, op, t') && InCorridor(t.limiter)
    ensures InCorridor(t'.limiter)
  {
    var e, m := StepMovesLimiter(t, op, t');
    MoveStaysInCorridor(t.limiter, e, m, t'.limiter);
  }

  lemma {:induction false} PathStaysInCorridor(trace: seq<Table>, ops: seq<Op>, n: nat)
    requires IsPath(trace, ops) && InCorridor(trace[0].limiter) && n < |trace|
    ensures InCorridor(trace[n].limiter)
  {
    if n > 0 {
      PathStaysInCorridor(trace, ops, n - 1);
      RunKeepsInv(trace, ops, n - 1);
      RunStep(trace, ops, n);
      StepStaysInTableCorridor(trace[n - 1], ops[n - 1], trace[n]);
    }
  }

  lemma RunStaysInCorridor(trace: seq<Table>, ops: seq<Op>, n: nat)
    requires IsRun(trace, ops) && n < |trace|
    ensures InCorridor(trace[n].limiter)
  {
    assert trace[0].limiter.Cursor() == 0.0;
    PathStaysInCorridor(trace, ops, n);
  }

  // ---------------------------------------------------------------------
  // The bound on the number of times an item is sampled
  // ---------------------------------------------------------------------

  lemma SampleKeepsBelowMax(t: Table, key: Key)
    requires InStep(t) && BelowMax(t) && key in t.data
    ensures BelowMax(SampleItem(t, key))
  {
  }

  /** An insert keeps every resident item below the bound exactly when the new
      item is below it, is only an update, or is pushed out again at once. The
      counter of an item comes with the request, so this is up to the caller. */
  lemma InsertKeepsBelowMaxIff(t: Table, item: Item, now: nat, evicted: Key)
    requires TableInv(t) && BelowMax(t) && MayEvict(t, item, now, evicted)
    ensures BelowMax(InsertOrAssign(t, item, now, evicted)) <==>
      || t.maxTimesSampled < 1
      || item.key in t.data
      || item.timesSampled < t.maxTimesSampled
      || (|t.data| + 1 > t.maxSize && evicted == item.key)
  {
    if item.key !in t.data {
      InsertedData(t, item, now, evicted);
      AddBelowIff(t.data, item.(insertedAt := now), t.maxTimesSampled, evicted);
    }
  }

  lemma AddBelowIff(data: map<Key, Item>, item: Item, max: int, evicted: Key)
    requires item.key !in data
    ensures AllBelow(data, max) ==>
      && (AllBelow(data[item.key := item], max) <==> item.timesSampled < max)
      && (AllBelow(data[item.key := item] - {evicted}, max) <==> item.timesSampled < max || evicted == item.key)
  {
    var added := data[item.key := item];
    assert added[item.key] == item;
    if evicted != item.key {
      assert (added - {evicted})[item.key] == item;
    }
  }

  lemma InsertedData(t: Table, item: Item, now: nat, evicted: Key)
    requires InStep(t) && item.key !in t.data
    ensures var added := t.data[item.key := item.(insertedAt := now)];
      InsertOrAssign(t, item, now, evicted).data == if |t.data| + 1 > t.maxSize then added - {evicted} else added
    ensures InsertOrAssign(t, item, now, evicted).maxTimesSampled == t.maxTimesSampled
  {
    CountedInsert(t, item, now, evicted);
    FitData(AddItem(t, item, now), evicted);
  }

  lemma FitData(t: Table, evicted: Key)
    requires InStep(t)
    ensures Fit(t, evicted).data == if |t.data| > t.maxSize then t.data - {evicted} else t.data
    ensures Fit(t, evicted).maxTimesSampled == t.maxTimesSampled
  {
    DeleteKeepsInStep(t, evicted);
  }

  ghost predicate InsertsUnsampled(ops: seq<Op>) {
    forall i :: 0 <= i < |ops| && ops[i].Insert? ==> ops[i].item.timesSampled == 0
  }

  lemma StepKeepsBelowMax(t: Table, op: Op, t': Table)
    requires TableInv(t) && BelowMax(t) && Step(t, op, t')
    requires op.Insert? ==> op.item.timesSampled == 0
    ensures BelowMax(t')
  {
    match op
    case Insert(item, now, evicted) => InsertKeepsBelowMaxIff(t, item, now, evicted);
    case Sample(key) => SampleKeepsBelowMax(t, key);
    case _ =>
  }

  /** On every run that inserts items as the writer creates them, unsampled, no
      resident item has used up its samples. */
  lemma {:induction false} RunKeepsBelowMax(trace: seq<Table>, ops: seq<Op>, n: nat)
    requires IsRun(trace, ops) && InsertsUnsampled(ops) && n < |trace|
    ensures BelowMax(trace[n])
  {
    if n > 0 {
      RunKeepsBelowMax(trace, ops, n - 1);
      RunKeepsInv(trace, ops, n - 1);
      RunStep(trace, ops, n);
      StepKeepsBelowMax(trace[n - 1], ops[n - 1], trace[n]);
    }
  }

  /** The item has used up its samples and is still there. */
  ghost predicate UsedUp(t: Table, key: Key) {
    key in t.data && 1 <= t.maxTimesSampled <= t.data[key].timesSampled
  }

  /** No sample removes an item that has used up its samples, not even a sample of the
      item itself: the counter has passed the value that it is compared with. */
  lemma SampleKeepsUsedUp(t: Table, key: Key, sampled: Key)
    requires InStep(t) && UsedUp(t, key) && sampled in t.data
    ensures UsedUp(SampleItem(t, sampled), key)
  {
    CountSampleKeepsInStep(t, sampled);
    DeleteKeepsInStep(CountSample(t, sampled), sampled);
  }

  /** The step removes the item: it is deleted, evicted or swept away by a reset. */
  ghost predicate Removes(t: Table, op: Op, key: Key) {
    match op
    case Insert(item, _, evicted) => item.key !in t.data && |t.data| + 1 > t.maxSize && evicted == key
    case Delete(k) => k == key
    case Reset => true
    case _ => false
  }

  lemma InsertKeepsUsedUp(t: Table, item: Item, now: nat, evicted: Key, key: Key)
    requires InStep(t) && UsedUp(t, key)
    requires item.key !in t.data && |t.data| + 1 > t.maxSize ==> evicted != key
    ensures UsedUp(InsertOrAssign(t, item, now, evicted), key)
  {
    if item.key !in t.data {
      InsertedData(t, item, now, evicted);
    }
  }

  lemma StepKeepsUsedUp(t: Table, op: Op, t': Table, key: Key)
    requires TableInv(t) && Step(t, op, t') && UsedUp(t, key) && !Removes(t, op, key)
    ensures UsedUp(t', key)
  {
    match op
    case Insert(item, now, evicted) => InsertKeepsUsedUp(t, item, now, evicted, key);
    case Sample(k) => SampleKeepsUsedUp(t, key, k);
    case Delete(k) => DeleteKeepsInStep(t, k);
    case _ =>
  }

  /** From the moment an item has used up its samples, it stays on every path until it
      is deleted, evicted or swept away, however often it is sampled. */
  lemma {:induction false} UsedUpStays(trace: seq<Table>, ops: seq<Op>, key: Key, m: nat, n: nat)
    requires IsPath(trace, ops) && m <= n < |trace| && UsedUp(trace[m], key)
    requires forall i :: m <= i < n ==> !Removes(trace[i], ops[i], key)
    ensures UsedUp(trace[n], key)
  {
    if n > m {
      UsedUpStays(trace, ops, key, m, n - 1);
      RunKeepsInv(trace, ops, n - 1);
      RunStep(trace, ops, n);
      StepKeepsUsedUp(trace[n - 1], ops[n - 1], trace[n], key);
    }
  }

  /** How often the steps from `m` up to `n` sampled the key. */
  function TimesSampled(ops: seq<Op>, m: nat, n: nat, key: Key): nat
    requires m <= n <= |ops|
    decreases n
  {
    if n == m then 0 else TimesSampled(ops, m, n - 1, key) + if ops[n - 1] == Sample(key) then 1 else 0
  }

  /** The item of the key was there all the time from state `m` to state `n`. */
  ghost predicate Resident(trace: seq<Table>, key: Key, m: nat, n: nat) {
    m <= n < |trace| && forall i :: m <= i <= n ==> key in trace[i].data
  }

  lemma StepCounts(t: Table, op: Op, t': Table, key: Key)
    requires TableInv(t) && Step(t, op, t') && key in t.data && key in t'.data
    ensures t'.maxTimesSampled == t.maxTimesSampled
    ensures t'.data[key].timesSampled == t.data[key].timesSampled + if op == Sample(key) then 1 else 0
  {
    match op
    case Insert(item, now, evicted) =>
      if item.key in t.data {
        UpdateReprioritizes(t, item.key, item.priority);
      } else {
        InsertAdds(t, item, now, evicted);
      }
    case Sample(k) => SampleDraws(t, k);
    case Delete(k) => DeleteRemoves(t, k);
    case Update(k, priority) => UpdateReprioritizes(t, k, priority);
    case Reset =>
  }

  /** While an item stays, its counter counts exactly its samples. */
  lemma {:induction false} CounterCounts(trace: seq<Table>, ops: seq<Op>, key: Key, m: nat, n: nat)
    requires IsPath(trace, ops) && Resident(trace, key, m, n)
    ensures trace[n].maxTimesSampled == trace[m].maxTimesSampled
    ensures trace[n].data[key].timesSampled == trace[m].data[key].timesSampled + TimesSampled(ops, m, n, key)
  {
    if n > m {
      CounterCounts(trace, ops, key, m, n - 1);
      RunKeepsInv(trace, ops, n - 1);
      RunStep(trace, ops, n);
      StepCounts(trace[n - 1], ops[n - 1], trace[n], key);
    }
  }

  /** A sample removes its item exactly if this makes its counter the maximum: for an item
      that came unsampled, with the sample of that number. */
  lemma SampledOutIff(trace: seq<Table>, ops: seq<Op>, key: Key, m: nat, n: nat)
    requires IsPath(trace, ops) && Resident(trace, key, m, n) && n < |ops| && ops[n] == Sample(key)
    ensures key !in trace[n + 1].data <==>
      trace[m].data[key].timesSampled + TimesSampled(ops, m, n, key) + 1 == trace[m].maxTimesSampled
  {
    CounterCounts(trace, ops, key, m, n);
    RunKeepsInv(trace, ops, n);
    RunStep(trace, ops, n + 1);
    SampleDraws(trace[n], key);
  }

  // ---------------------------------------------------------------------
  // Paths of a table in use
  // ---------------------------------------------------------------------

  /** What has happened to a table so far. */
  datatype Path = Path(trace: seq<Table>, ops: seq<Op>)

  /** The path leads to `t`, and started inside the corridor. */
  ghost predicate LeadsTo(p: Path, t: Table) {
    IsPath(p.trace, p.ops) && InCorridor(p.trace[0].limiter) && p.trace[|p.ops|] == t
  }

  function Extended(p: Path, op: Op, t: Table): Path {
    Path(p.trace + [t], p.ops + [op])
  }

  lemma ExtendPath(p: Path, t: Table, op: Op, t': Table)
    requires LeadsTo(p, t) && TableInv(t) && Step(t, op, t')
    ensures LeadsTo(Extended(p, op, t'), t') && TableInv(t')
  {
    LastStepAt(p.trace + [t'], p.ops + [op], |p.ops|);
    PathSnoc(p.trace, p.ops, op, t');
    StepKeepsInv(t, op, t');
  }

  lemma LastStepAt(trace: seq<Table>, ops: seq<Op>, n: nat)
    requires n < |ops| < |trace| && TableInv(trace[n]) && Step(trace[n], ops[n], trace[n + 1])
    ensures StepAt(trace, ops, n)
  {
  }

  lemma PathSnoc(trace: seq<Table>, ops: seq<Op>, op: Op, t: Table)
    requires IsPath(trace, ops) && StepAt(trace + [t], ops + [op], |ops|)
    ensures IsPath(trace + [t], ops + [op])
  {
    var trace', ops' := trace + [t], ops + [op];
    forall i | 0 <= i < |ops'|
      ensures StepAt(trace', ops', i)
    {
      if i < |ops| {
        assert StepAt(trace, ops, i);
        SameStepAt(trace, ops, trace', ops', i);
      }
    }
  }

  lemma SameStepAt(trace: seq<Table>, ops: seq<Op>, trace': seq<Table>, ops': seq<Op>, i: nat)
    requires i < |ops| < |trace| && i < |ops'| < |trace'|
    requires trace[i] == trace'[i] && trace[i + 1] == trace'[i + 1] && ops[i] == ops'[i]
    ensures StepAt(trace, ops, i) == StepAt(trace', ops', i)
  {
  }

  /** The items that were handed to the table, in order. */
  function InsertsOf(ops: seq<Op>): seq<Item> {
    if ops == [] then []
    else
      var n := |ops| - 1;
      InsertsOf(ops[..n]) + if ops[n].Insert? then [ops[n].item] else []
  }

  /** An item as it was handed out, and the size of the table at that time. */
  datatype Handed = Handed(item: Item, tableSize: nat)

  function HandedBy(t: Table, op: Op): seq<Handed> {
    if op.Sample? && op.key in t.data then [Handed(CountSample(t, op.key).data[op.key], |t.data|)] else []
  }

  /** What the table handed out along the path, in order. */
  function HandedOut(trace: seq<Table>, ops: seq<Op>): seq<Handed>
    requires |trace| == |ops| + 1
    decreases |ops|
  {
    if ops == [] then []
    else
      var n := |ops| - 1;
      HandedOut(trace[..n + 1], ops[..n]) + HandedBy(trace[n], ops[n])
  }

  lemma ExtendedLogs(p: Path, t: Table, op: Op, t': Table)
    requires LeadsTo(p, t)
    ensures var p' := Extended(p, op, t');
      && InsertsOf(p'.ops) == InsertsOf(p.ops) + (if op.Insert? then [op.item] else [])
      && |p'.trace| == |p'.ops| + 1
      && HandedOut(p'.trace, p'.ops) == HandedOut(p.trace, p.ops) + HandedBy(t, op)
  {
    var p', n := Extended(p, op, t'), |p.ops|;
    assert p'.ops[..n] == p.ops && p'.trace[..n + 1] == p.trace;
  }
}

/** `Table` itself: the operations that the table's methods perform in place while
    they hold its lock. */
module Table {

  import opened Status
  import opened Selector
  import opened RateLimiter
  import opened TableSpec
  import Checkpoint

  /** The stored counts are the counts of `refs`, without zero entries. */
  ghost predicate Counts(stored: map<Episode, nat>, refs: multiset<Episode>) {
    forall e :: if e in stored then stored[e] == refs[e] > 0 else e !in refs
  }

  /** The contents determine the stored counts, so a table that was loaded from a
      checkpoint has the counts of the table that was saved. */
  lemma CountsAreDetermined(a: Table, b: Table)
    requires a.Valid() && b.Valid() && a.contents == b.contents
    ensures a.episodeRefs == b.episodeRefs
  {
    forall e ensures e in a.episodeRefs <==> e in b.episodeRefs { }
  }

  /** One reference less; an episode without references is forgotten. */
  function Decrement(stored: map<Episode, nat>, e: Episode): map<Episode, nat>
    requires e in stored && stored[e] > 0
  {
    if stored[e] == 1 then stored - {e} else stored[e := stored[e] - 1]
  }

  lemma DecrementCounts(stored: map<Episode, nat>, refs: multiset<Episode>, e: Episode)
    requires Counts(stored, refs) && e in stored
    ensures Counts(Decrement(stored, e), refs - multiset{e})
  {
  }

  lemma TakeNext<T>(s: seq<T>, i: nat)
    requires i < |s|
    ensures multiset(s[..i + 1]) == multiset(s[..i]) + multiset{s[i]}
  {
    assert s[..i + 1] == s[..i] + [s[i]];
  }

  lemma TakeWithin<T>(s: seq<T>, refs: multiset<T>, i: nat)
    requires i < |s| && multiset(s) <= refs
    ensures s[i] in refs - multiset(s[..i])
  {
    TakeNext(s, i);
    assert s == s[..i + 1] + s[i + 1..];
    assert multiset(s) == multiset(s[..i + 1]) + multiset(s[i + 1..]);
  }

  method Choose(sel: Selector) returns (k: Key)
    requires sel.Keys() != {}
    ensures sel.MaySample(k) && k in sel.Keys()
  {
    ghost var _ := SampleExists(sel);
    if sel.Ranked? {
      k :| k in sel.priorities;
    } else {
      k := sel.keys[0];
    }
  }

  datatype SampledItem = SampledItem(item: Item, tableSize: nat, rateLimited: bool)

  /** The lock-protected state: the contents, and the stored episode counts. */
  class Table {
    var contents: TableSpec.Table
    var episodeRefs: map<Episode, nat>

    /** Items, selectors and episode counts are in step. */
    ghost predicate Valid()
      reads this
    {
      InStep(contents) && Counts(episodeRefs, AllRefs(contents.data))
    }

    constructor (sampler: Selector, remover: Selector, maxSize: nat, maxTimesSampled: int, config: Config)
      ensures contents == Empty(sampler, remover, maxSize, maxTimesSampled, config)
      ensures Valid() && Starts(sampler, remover, maxSize, maxTimesSampled, config, contents)
    {
      contents := Empty(sampler, remover, maxSize, maxTimesSampled, config);
      episodeRefs := map[];
    }

    /** Counts the references of a new item. */
    method ReferenceEpisodes(episodes: seq<Episode>, ghost refs: multiset<Episode>)
      requires Counts(episodeRefs, refs)
      modifies `episodeRefs
      ensures Counts(episodeRefs, refs + multiset(episodes))
    {
      for i := 0 to |episodes|
        invariant Counts(episodeRefs, refs + multiset(episodes[..i]))
      {
        var e := episodes[i];
        TakeNext(episodes, i);
        episodeRefs := episodeRefs[e := 1 + if e in episodeRefs then episodeRefs[e] else 0];
      }
      assert episodes[..|episodes|] == episodes;
    }

    /** Releases the references of an item; an episode without references is
        forgotten. It fails only if a reference was not counted. */
    method ReleaseEpisodes(episodes: seq<Episode>, ghost refs: multiset<Episode>) returns (status: Status)
      requires Counts(episodeRefs, refs)
      modifies `episodeRefs
      ensures multiset(episodes) <= refs ==> status == Ok && Counts(episodeRefs, refs - multiset(episodes))
    {
      for i := 0 to |episodes|
        invariant Counts(episodeRefs, refs - multiset(episodes[..i]))
      {
        var e := episodes[i];
        TakeNext(episodes, i);
        if multiset(episodes) <= refs {
          TakeWithin(episodes, refs, i);
        }
        if e !in episodeRefs {
          return FailedPrecondition;
        }
        DecrementCounts(episodeRefs, refs - multiset(episodes[..i]), e);
        episodeRefs := Decrement(episodeRefs, e);
      }
      assert episodes[..|episodes|] == episodes;
      status := Ok;
    }

    method UpdateItem(key: Key, priority: real)
      requires Valid()
      modifies `contents
      ensures Valid() && contents == TableSpec.UpdateItem(old(contents), key, priority)
      ensures Reprioritized(old(contents), key, priority, contents)
    {
      UpdateReprioritizes(contents, key, priority);
      if key in contents.data {
        UpdateKeepsInStep(contents, key, priority);
        AllRefsReplace(contents.data, contents.data[key].(priority := priority));
        contents := TableSpec.UpdateItem(contents, key, priority);
      }
    }

    method DeleteItem(key: Key) returns (status: Status)
      requires Valid()
      modifies this
      ensures status == Ok && Valid() && contents == TableSpec.DeleteItem(old(contents), key)
    {
      if key !in contents.data {
        return Ok;
      }
      ghost var data := contents.data;
      AllRefsRemove(data, key);
      status := ReleaseEpisodes(contents.data[key].episodes, AllRefs(data));
      assert AllRefs(data) - multiset(data[key].episodes) == AllRefs(data - {key});
      DeleteKeepsInStep(contents, key);
      contents := TableSpec.DeleteItem(contents, key);
    }

    /** Removes an item chosen by the remover when the table is over its size. */
    method EvictIfOverfull() returns (status: Status, evicted: Key)
      requires Valid()
      modifies this
      ensures status == Ok && Valid()
      ensures |old(contents).data| > old(contents).maxSize ==> old(contents).remover.MaySample(evicted)
      ensures contents == Fit(old(contents), evicted)
    {
      status, evicted := Ok, 0;
      if |contents.data| > contents.maxSize {
        assert contents.data.Keys != {};
        evicted := Choose(contents.remover);
        status := DeleteItem(evicted);
      }
    }

    method AddFresh(item: Item, now: nat)
      requires Valid() && item.key !in contents.data
      modifies this
      ensures Valid() && contents == TableSpec.AddItem(old(contents), item, now)
    {
      AddItemKeepsInStep(contents, item, now);
      AllRefsAdd(contents.data, item.(insertedAt := now));
      ReferenceEpisodes(item.episodes, AllRefs(contents.data));
      contents := TableSpec.AddItem(contents, item, now);
    }

    method InsertOrAssignInternal(item: Item, now: nat) returns (status: Status, evicted: Key)
      requires Valid()
      modifies this
      ensures status == Ok && Valid()
      ensures MayEvict(old(contents), item, now, evicted)
      ensures contents == TableSpec.InsertOrAssign(old(contents), item, now, evicted)
      ensures if item.key in old(contents).data then Reprioritized(old(contents), item.key, item.priority, contents)
              else Added(old(contents), item, now, evicted, contents)
    {
      if item.key in contents.data {
        UpdateItem(item.key, item.priority);
        return Ok, 0;
      }
      ghost var t := contents;
      status, evicted := InsertFresh(item, now);
      InsertAdds(t, item, now, evicted);
    }

    /** A new key goes in, and may push another one out. */
    method InsertFresh(item: Item, now: nat) returns (status: Status, evicted: Key)
      requires Valid() && item.key !in contents.data
      modifies this
      ensures status == Ok && Valid()
      ensures MayEvict(old(contents), item, now, evicted)
      ensures contents == TableSpec.InsertOrAssign(old(contents), item, now, evicted)
    {
      ghost var t := contents;
      AddFresh(item, now);
      status, evicted := EvictIfOverfull();
      CountedInsert(t, item, now, evicted);
      contents := CountInsert(contents);
    }

    /** Inserts without consulting or moving the limiter. */
    method InsertCheckpointItem(item: Item) returns (status: Status)
      requires Valid()
      modifies this
      ensures Valid()
      ensures Checkpoint.Loaded(status, contents) == Checkpoint.LoadItem(old(contents), item)
    {
      if |contents.data| + 1 > contents.maxSize || item.key in contents.data {
        return FailedPrecondition;
      }
      AddFresh(item, item.insertedAt);
      return Ok;
    }

    /** Samples one item after the limiter has committed it. */
    method SampleInternal(rateLimited: bool) returns (status: Status, sampled: SampledItem)
      requires Valid() && contents.data != map[]
      modifies this
      ensures status == Ok && Valid()
      ensures var t, key := old(contents), sampled.item.key;
        && key in t.data && t.sampler.MaySample(key)
        && contents == TableSpec.SampleItem(t, key)
        && sampled == SampledItem(CountSample(t, key).data[key], |t.data|, rateLimited)
    {
      assert contents.data.Keys != {};
      var key := Choose(contents.sampler);
      CountSampleKeepsInStep(contents, key);
      AllRefsReplace(contents.data, CountSample(contents, key).data[key]);
      contents := CountSample(contents, key);
      sampled := SampledItem(contents.data[key], |contents.data|, rateLimited);
      status := Ok;
      if sampled.item.timesSampled == contents.maxTimesSampled {
        status := DeleteItem(key);
      }
    }

    method MaybeCommitSample() returns (committed: bool)
      requires Valid()
      modifies `contents
      ensures Valid()
      ensures committed == old(contents).limiter.CanSample(1)
      ensures var l := old(contents).limiter;
        contents == if committed then old(contents).(limiter := l.(samples := l.samples + 1)) else old(contents)
    {
      committed := contents.limiter.CanSample(1);
      if committed {
        contents := contents.(limiter := contents.limiter.(samples := contents.limiter.samples + 1));
      }
    }

    method MutateItems(updates: seq<(Key, real)>, deletes: seq<Key>) returns (status: Status)
      requires Valid()
      modifies this
      ensures status == Ok && Valid()
      ensures InStep(DeleteAll(old(contents), deletes))
      ensures contents == UpdateAll(DeleteAll(old(contents), deletes), updates)
      ensures Mutated(old(contents), deletes, updates, contents)
    {
      ghost var t := contents;
      MutationMutates(t, deletes, updates);
      for i := 0 to |deletes|
        invariant Valid() && DeleteAll(t, deletes) == DeleteAll(contents, deletes[i..])
      {
        DeleteKeepsInStep(contents, deletes[i]);
        assert deletes[i..][1..] == deletes[i + 1..];
        status := DeleteItem(deletes[i]);
        if status != Ok {
          return;
        }
      }
      ghost var d := contents;
      for i := 0 to |updates|
        invariant Valid() && UpdateAll(d, updates) == UpdateAll(contents, updates[i..])
      {
        assert updates[i..][1..] == updates[i + 1..];
        UpdateItem(updates[i].0, updates[i].1);
      }
      status := Ok;
    }

    method Reset()
      requires Valid()
      modifies this
      ensures Valid() && contents == ResetTable(old(contents))
      ensures var t := old(contents);
        Starts(t.sampler, t.remover, t.maxSize, t.maxTimesSampled, t.limiter.config, contents)
    {
      contents := ResetTable(contents);
      episodeRefs := map[];
    }
  }
}
