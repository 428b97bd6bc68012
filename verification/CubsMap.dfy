/** The hash map (src/primitives/map/map.c): groups of slots that index the pairs, and a doubly linked
    list through all of them in insertion order. `entries` is the abstract value: the keys and the memory
    behind them, which holds the values. */
module CubsMap {
  import opened HashGroup
  import opened HashIndex
  import opened Options
  import opened Words
  import opened PairMemory
  import M = OrderedMap

  /** The doubly linked list through `order`. */
  ghost predicate Linked<K, V>(order: seq<Pair<K, V>>, first: Pair?<K, V>, last: Pair?<K, V>)
    reads order
  {
    && (order == [] ==> first == null && last == null)
    && (order != [] ==>
          && first == order[0] && order[0].iterBefore == null
          && last == order[|order| - 1] && order[|order| - 1].iterAfter == null)
    && (forall i {:trigger order[i].iterBefore} :: 1 <= i < |order| ==> order[i].iterBefore == order[i - 1])
    && (forall i {:trigger order[i].iterAfter} :: 0 <= i < |order| - 1 ==> order[i].iterAfter == order[i + 1])
  }

  ghost predicate Distinct<K, V>(order: seq<Pair<K, V>>) {
    forall i, j :: 0 <= i < j < |order| ==> order[i] != order[j]
  }

  ghost function All<K, V>(order: seq<Pair<K, V>>): set<Pair?<K, V>> {
    set p | p in order
  }

  /** Every pair stores its key's hash, and no key appears twice. */
  ghost predicate Keyed<K, V>(order: seq<Pair<K, V>>, hash: K -> Hash) {
    && (forall i :: 0 <= i < |order| ==> order[i].hashCode == hash(order[i].key))
    && (forall i, j :: 0 <= i < j < |order| ==> order[i].key != order[j].key)
  }

  /** The entries are the pairs' keys and memory. */
  ghost predicate Records<K>(order: seq<Pair<K, Memory>>, es: seq<M.Entry<K, Memory>>, l: Layout)
    reads order
  {
    && |es| == |order| && Sized(l, es)
    && (forall i :: 0 <= i < |order| ==> es[i] == M.Entry(order[i].key, order[i].value))
  }

  class Map<K(==)> {
    const layout: Layout
    const hash: K -> Hash
    var len: nat
    var groups: seq<Group<K, Memory>>
    var available: nat
    var iterFirst: Pair?<K, Memory>
    var iterLast: Pair?<K, Memory>
    ghost var order: seq<Pair<K, Memory>>
    ghost var entries: seq<M.Entry<K, Memory>>

    /** The list and the abstract entries agree. */
    ghost predicate ListOk()
      reads this, order
    {
      && Linked(order, iterFirst, iterLast)
      && Keyed(order, hash)
      && Records(order, entries, layout)
    }

    ghost predicate Agree()
      reads this, order
    {
      ListOk() && Indexes(groups, All(order))
    }

    ghost predicate Valid()
      reads this, order
    {
      Agree() && |entries| <= len && (len > 0 ==> |groups| > 0)
    }

    /** The part of the state that users see. */
    ghost function State(): M.State<K, Memory>
      reads this
    {
      M.State(entries, len)
    }

    constructor (layout: Layout, hash: K -> Hash)
      ensures Valid() && order == [] && entries == [] && len == 0 && this.layout == layout && this.hash == hash
    {
      this.layout := layout;
      this.hash := hash;
      len, groups, available := 0, [], 0;
      iterFirst, iterLast := null, null;
      order, entries := [], [];
    }

    /** `map_ensure_total_capacity`: the first group on first use, twice as many when none is available. */
    method EnsureTotalCapacity()
      requires Valid()
      modifies this`groups, this`available
      ensures Valid() && |groups| > 0 && available > 0
    {
      hide Linked, Keyed, Records, Indexes;
      if |groups| == 0 {
        NothingYet(order, entries, layout);
        groups := EmptyGroups(1);
        EmptyGroupsIndexNothing<K, Memory>(1);
        available := 25;  // (size_t)(32 * 0.8f)
      } else if available == 0 {
        groups := Rehash(groups, All(order));
        available := GROUP_ALLOC_SIZE * |groups| * 4 / 5;
      }
    }

    /** The group and slot where the key's pair is, if the key is in the map. */
    method Locate(key: K) returns (groupIndex: nat, slot: int, ghost k: nat)
      requires Agree() && |groups| > 0
      ensures groupIndex == SlotOf(hash(key), |groups|) && groupIndex < |groups|
      ensures slot >= 0 ==> k < |order| && order[k].key == key && Live(groups[groupIndex], slot)
                            && groups[groupIndex].pairs[slot] == order[k]
      ensures slot < 0 ==> !M.HasKey(entries, key)
    {
      groupIndex := SlotOf(hash(key), |groups|);
      slot := GroupFind(groups[groupIndex], key, TagOf(hash(key)));
      if slot >= 0 {
        assert groups[groupIndex].pairs[slot] in Members(groups[groupIndex]);
        k :| 0 <= k < |order| && order[k] == groups[groupIndex].pairs[slot];
      } else {
        if M.HasKey(entries, key) {
          var i :| 0 <= i < |entries| && entries[i].key == key;
          assert order[i] in All(order);
          var j :| Live(groups[groupIndex], j) && groups[groupIndex].pairs[j] == order[i];
          assert Matches(groups[groupIndex], key, TagOf(hash(key)), j);
        }
        k := 0;
      }
    }

    /** The value is read where a new pair has it. */
    method Find(key: K) returns (r: Option<seq<Byte>>)
      requires Valid()
      ensures r == M.Lookup(View(layout, entries, Round8(layout.keySize)), key)
    {
      LookupView(layout, entries, key, Round8(layout.keySize));
      if len == 0 {
        return None;
      }
      var groupIndex, slot, k := Locate(key);
      if slot < 0 {
        M.LookupAbsent(entries, key);
        return None;
      }
      M.LookupPresent(entries, k);
      r := Some(ReadAt(layout, groups[groupIndex].pairs[slot].value, Round8(layout.keySize)));
    }

    /** A pair's memory written in place. */
    method Write(pair: Pair<K, Memory>, ghost k: nat, memory: Memory)
      requires Linked(order, iterFirst, iterLast) && Distinct(order) && k < |order| && pair == order[k]
      requires Records(order, entries, layout) && |memory| == MemorySize(layout)
      modifies this`entries, pair`value
      ensures Linked(order, iterFirst, iterLast) && entries == old(entries)[k := M.Entry(pair.key, memory)]
      ensures Records(order, entries, layout)
    {
      pair.value := memory;
      entries := entries[k := M.Entry(pair.key, memory)];
    }

    /** The value of the key's pair written at the key's size as it is. */
    method Overwrite(pair: Pair<K, Memory>, ghost k: nat, value: seq<Byte>, ghost was: Memory)
      requires Agree() && k < |order| && pair == order[k]
      requires |value| == layout.valueSize && |was| == MemorySize(layout)
      modifies this`entries, pair`value
      ensures Agree() && entries == InsertEntry(layout, old(entries), pair.key, value, was)
    {
      hide Linked, Keyed, Distinct, Indexes, All, M.Lookup, M.Insert, WriteAt;
      KeyedDistinct(order, hash);
      RecordsKeyed(order, entries, layout, hash);
      M.LookupPresent(entries, k);
      var memory := WriteAt(layout, pair.value, layout.keySize, value);
      M.ActAt(entries, k, memory);
      hide Records;
      Write(pair, k, memory);
    }

    /** Linking a new pair behind the last one. */
    method Append(hashCode: Hash, key: K, value: Memory) returns (newPair: Pair<K, Memory>)
      requires Linked(order, iterFirst, iterLast) && Records(order, entries, layout)
      modifies this`iterFirst, this`iterLast, this`order, order
      ensures fresh(newPair) && newPair.hashCode == hashCode && newPair.key == key && newPair.value == value
      ensures order == old(order) + [newPair] && Linked(order, iterFirst, iterLast)
      ensures Records(old(order), entries, layout)
    {
      newPair := new Pair(hashCode, key, value, iterLast);
      if iterFirst == null {
        iterFirst := newPair;
      }
      if iterLast == null {
        iterLast := newPair;
      } else {
        iterLast.iterAfter := newPair;
        iterLast := newPair;
      }
      order := order + [newPair];
    }

    method InsertNew(key: K, memory: Memory, groupIndex: nat)
      requires Agree() && |groups| > 0 && !M.HasKey(entries, key) && groupIndex == SlotOf(hash(key), |groups|)
      requires |memory| == MemorySize(layout)
      modifies this`groups, this`iterFirst, this`iterLast, this`order, this`entries, order
      ensures Agree() && entries == old(entries) + [M.Entry(key, memory)] && |groups| == old(|groups|)
      ensures forall p :: p in order ==> p in old(order) || fresh(p)
    {
      hide Linked, Keyed, Records, Indexes, M.HasKey, GroupOk;
      ghost var o, es := order, entries;
      KeyAbsent(o, es, layout, key);
      IndexedGroup(groups, All(o), groupIndex);
      var newPair := Append(hash(key), key, memory);
      assert newPair !in o;
      AllAppend(o, newPair);
      KeyedAppend(o, newPair, hash);
      RecordsAppend(o, es, newPair, layout);
      var newGroup := GroupAdd(groups[groupIndex], newPair);
      IndexAdd(groups, All(o), groupIndex, newPair, newGroup);
      groups := groups[groupIndex := newGroup];
      entries := entries + [M.Entry(key, memory)];
    }

    /** `group_insert`: a present key's value is overwritten and an absent key is added at the end; `was` is
        what the memory allocated for it holds. */
    method GroupInsert(key: K, value: seq<Byte>, was: Memory)
      requires Agree() && |groups| > 0 && Fits(layout, InsertCall(key, value, was))
      modifies this`groups, this`iterFirst, this`iterLast, this`order, this`entries, order
      ensures Agree() && |groups| > 0 && entries == InsertEntry(layout, old(entries), key, value, was)
      ensures forall p :: p in order ==> p in old(order) || fresh(p)
    {
      var groupIndex, slot, k := Locate(key);
      if slot >= 0 {
        Overwrite(groups[groupIndex].pairs[slot], k, value, was);
      } else {
        M.LookupAbsent(entries, key);
        var memory := WriteAt(layout, was, Round8(layout.keySize), value);
        M.ActAbsent(entries, key, memory);
        InsertNew(key, memory, groupIndex);
      }
    }

    /** `len` counts the calls, so it stays the number of entries exactly as long as the keys are new. */
    method Insert(key: K, value: seq<Byte>, was: Memory)
      requires Valid() && Fits(layout, InsertCall(key, value, was))
      modifies this, order
      ensures Valid() && State() == After(layout, old(State()), InsertCall(key, value, was))
      ensures forall p :: p in order ==> p in old(order) || fresh(p)
    {
      EnsureTotalCapacity();
      M.InsertLength(entries, key, Stored(layout, entries, key, value, was));
      GroupInsert(key, value, was);
      len := len + 1;
      available := available - 1;
    }

    /** `pair_deinit`: the pair at position `k` is taken out of the list. */
    method Unlink(pair: Pair<K, Memory>, ghost k: nat)
      requires Linked(order, iterFirst, iterLast) && Distinct(order) && k < |order| && pair == order[k]
      modifies this`iterFirst, this`iterLast, this`order, order
      ensures order == old(order)[..k] + old(order)[k + 1..] && Linked(order, iterFirst, iterLast)
      ensures forall i :: 0 <= i < |old(order)| ==> old(order)[i].value == old(order[i].value)
    {
      ghost var o := order;
      var before := pair.iterBefore;
      var after := pair.iterAfter;
      assert o[k].iterBefore == before && o[k].iterAfter == after;
      if before != null {
        before.iterAfter := after;
      } else {
        iterFirst := after;
      }
      if after != null {
        after.iterBefore := before;
      } else {
        iterLast := before;
      }
      order := order[..k] + order[k + 1..];
      assert Distinct(o);
    }

    /** The pairs' memory stays as it is. */
    method UnlinkOnly(pair: Pair<K, Memory>, ghost k: nat)
      requires Linked(order, iterFirst, iterLast) && Distinct(order) && k < |order| && pair == order[k]
      requires Records(order, entries, layout)
      modifies this`iterFirst, this`iterLast, this`order, order
      ensures order == old(order)[..k] + old(order)[k + 1..] && Linked(order, iterFirst, iterLast)
      ensures Records(old(order), entries, layout)
    {
      hide Linked, Distinct;
      Unlink(pair, k);
    }

    /** Taking the pair out of the list takes its entry out of the abstract value. */
    method UnlinkEntry(pair: Pair<K, Memory>, ghost k: nat)
      requires ListOk() && k < |order| && pair == order[k]
      modifies this`iterFirst, this`iterLast, this`order, this`entries, order
      ensures ListOk() && order == old(order)[..k] + old(order)[k + 1..]
      ensures entries == M.Erase(old(entries), pair.key)
    {
      hide Linked, Keyed, Distinct, Records, M.Erase, M.Insert;
      ghost var o, es := order, entries;
      RecordsKeyed(o, es, layout, hash);
      M.ActAt(es, k, es[k].value);
      KeyedDistinct(o, hash);
      KeyedWithout(o, k, hash);
      UnlinkOnly(pair, k);
      RecordsWithout(o, es, k, layout);
      entries := entries[..k] + entries[k + 1..];
    }

    /** `group_erase` once the key's pair has been found. */
    method EraseAt(groupIndex: nat, slot: nat, ghost k: nat)
      requires Agree() && groupIndex < |groups| && k < |order|
      requires Live(groups[groupIndex], slot) && groups[groupIndex].pairs[slot] == order[k]
      modifies this`groups, this`iterFirst, this`iterLast, this`order, this`entries, order
      ensures Agree() && |groups| == old(|groups|) && entries == M.Erase(old(entries), old(order[k].key))
      ensures forall p :: p in order ==> p in old(order)
    {
      hide Linked, Keyed, Distinct, M.Erase, Indexes, Live, Clear, All, GroupOk, Members;
      KeyedDistinct(order, hash);
      var g := groups[groupIndex];
      EraseIndex(groups, order, groupIndex, slot, k);
      groups := groups[groupIndex := Clear(g, slot)];
      UnlinkEntry(g.pairs[slot], k);
    }

    /** `group_erase`: false when the key is not there. */
    method GroupErase(key: K) returns (result: bool)
      requires Agree() && |groups| > 0
      modifies this`groups, this`iterFirst, this`iterLast, this`order, this`entries, order
      ensures Agree() && |groups| > 0 && entries == M.Erase(old(entries), key)
      ensures forall p :: p in order ==> p in old(order)
      ensures result <==> M.HasKey(old(entries), key)
    {
      var groupIndex, slot, k := Locate(key);
      if slot < 0 {
        M.EraseAbsent(entries, key);
        return false;
      }
      assert entries[k].key == key;
      EraseAt(groupIndex, slot, k);
      return true;
    }

    /** True and the key is gone, or false and nothing changed because it was not there. */
    method Erase(key: K) returns (result: bool)
      requires Valid()
      modifies this, order
      ensures Valid() && State() == After(layout, old(State()), EraseCall(key))
      ensures forall p :: p in order ==> p in old(order)
      ensures result <==> M.HasKey(old(entries), key)
    {
      hide Linked, Keyed, Records, Indexes, M.Erase;
      M.EraseLength(entries, key);
      if len == 0 {
        return false;
      }
      result := GroupErase(key);
      if result {
        len := len - 1;
        available := available + 1;
      }
    }

    /** What is left of the list when the pairs of `done`, listed in `freed`, have been freed. */
    ghost predicate Freeing(all: set<Pair?<K, Memory>>, done: set<Pair?<K, Memory>>, freed: seq<Pair<K, Memory>>)
      reads this, order
    {
      && Linked(order, iterFirst, iterLast) && Distinct(order) && All(order) == all - done
      && done == All(freed) && Distinct(freed)
    }

    /** `pair_deinit` of one pair that is still in the list. */
    method FreePair(pair: Pair<K, Memory>, ghost all: set<Pair?<K, Memory>>, ghost done: set<Pair?<K, Memory>>,
                    ghost freed: seq<Pair<K, Memory>>)
      requires Freeing(all, done, freed) && pair in all && pair !in done
      modifies this`iterFirst, this`iterLast, this`order, all
      ensures Freeing(all, done + {pair}, freed + [pair])
    {
      ghost var k := PositionOf(order, pair);
      AllWithout(order, k);
      ghost var o := order;
      forall p | p in order ensures p in all {
        assert p in All(order);
      }
      Unlink(pair, k);
      DistinctWithout(o, k);
      assert All(freed + [pair]) == All(freed) + {pair};
    }

    /** `group_deinit`: every pair in a used slot is taken out of the list and freed. */
    method GroupDeinit(a: nat, ghost all: set<Pair?<K, Memory>>, ghost done: set<Pair?<K, Memory>>,
                       ghost freed: seq<Pair<K, Memory>>)
      returns (ghost done': set<Pair?<K, Memory>>, ghost freed': seq<Pair<K, Memory>>)
      requires Indexes(groups, all) && a < |groups| && Moved(groups, all, a, 0, done)
      requires Freeing(all, done, freed)
      modifies this`iterFirst, this`iterLast, this`order, all
      ensures Freeing(all, done', freed')
      ensures Moved(groups, all, a + 1, 0, done')
    {
      var g := groups[a];
      freed', done' := freed, done;
      if g.pairCount == 0 {
        MoveGroup(groups, all, a, 0, done');
        return;
      }
      for i := 0 to |g.tags|
        invariant Freeing(all, done', freed')
        invariant Moved(groups, all, a, i, done')
      {
        MoveOne(groups, all, a, i, done');
        if g.tags[i] == 0 {
          continue;
        }
        FreePair(g.pairs[i], all, done', freed');
        freed' := freed' + [g.pairs[i]];
        done' := done' + {g.pairs[i]};
      }
      MoveGroup(groups, all, a, |g.tags|, done');
    }

    /** Freeing the map frees each of its pairs once and empties the list. */
    method Deinit() returns (ghost freed: seq<Pair<K, Memory>>)
      requires Valid()
      modifies this, order
      ensures Distinct(freed) && All(freed) == old(All(order))
      ensures iterFirst == null && iterLast == null && groups == []
    {
      ghost var all, done: set<Pair?<K, Memory>> := All(order), {};
      freed := [];
      KeyedDistinct(order, hash);
      for a := 0 to |groups|
        invariant groups == old(groups) && Indexes(groups, all) && Moved(groups, all, a, 0, done)
        invariant Freeing(all, done, freed)
      {
        done, freed := GroupDeinit(a, all, done, freed);
      }
      assert done == all;
      AllHasFirst(order);
      groups := [];
    }
  }

  lemma NothingYet<K>(order: seq<Pair<K, Memory>>, es: seq<M.Entry<K, Memory>>, l: Layout)
    requires Records(order, es, l) && es == []
    ensures All(order) == {}
  {
  }

  lemma AllHasFirst<K, V>(order: seq<Pair<K, V>>)
    ensures order != [] ==> order[0] in All(order)
  {
  }

  lemma KeyedDistinct<K, V>(order: seq<Pair<K, V>>, hash: K -> Hash)
    requires Keyed(order, hash)
    ensures Distinct(order)
  {
  }

  lemma DistinctWithout<K, V>(order: seq<Pair<K, V>>, k: nat)
    requires k < |order| && Distinct(order)
    ensures Distinct(order[..k] + order[k + 1..])
  {
  }

  lemma PositionOf<K, V>(order: seq<Pair<K, V>>, p: Pair?<K, V>) returns (k: nat)
    requires p in All(order)
    ensures k < |order| && order[k] == p
  {
    k :| 0 <= k < |order| && order[k] == p;
  }

  /** Clearing the slot of a pair takes just that pair out of the index. */
  lemma EraseIndex<K, V>(groups: seq<Group<K, V>>, order: seq<Pair<K, V>>, groupIndex: nat, slot: nat, k: nat)
    requires Indexes(groups, All(order)) && Distinct(order) && groupIndex < |groups| && k < |order|
    requires Live(groups[groupIndex], slot) && groups[groupIndex].pairs[slot] == order[k]
    ensures slot < |groups[groupIndex].tags| == |groups[groupIndex].pairs| && groups[groupIndex].pairCount > 0
    ensures Indexes(groups[groupIndex := Clear(groups[groupIndex], slot)], All(order[..k] + order[k + 1..]))
  {
    var g := groups[groupIndex];
    assert order[k] in Members(g);
    ClearOk(g, slot);
    IndexRemove(groups, All(order), groupIndex, order[k], Clear(g, slot));
    AllWithout(order, k);
  }

  lemma AllWithout<K, V>(order: seq<Pair<K, V>>, k: nat)
    requires k < |order| && Distinct(order)
    ensures All(order[..k] + order[k + 1..]) == All(order) - {order[k]}
  {
    var r := order[..k] + order[k + 1..];
    forall p | p in All(order) && p != order[k] ensures p in r {
      var i :| 0 <= i < |order| && order[i] == p;
      assert r[if i < k then i else i - 1] == p;
    }
  }

  lemma KeyedWithout<K, V>(order: seq<Pair<K, V>>, k: nat, hash: K -> Hash)
    requires k < |order| && Keyed(order, hash)
    ensures Keyed(order[..k] + order[k + 1..], hash)
  {
  }

  /** Each entry has its pair's key, and no key is there twice. */
  lemma RecordsKeyed<K>(order: seq<Pair<K, Memory>>, es: seq<M.Entry<K, Memory>>, l: Layout, hash: K -> Hash)
    requires Records(order, es, l) && Keyed(order, hash)
    ensures |es| == |order| && M.DistinctKeys(es) && Sized(l, es)
    ensures forall i :: 0 <= i < |es| ==> es[i] == M.Entry(order[i].key, order[i].value)
  {
  }

  lemma RecordsWithout<K>(order: seq<Pair<K, Memory>>, es: seq<M.Entry<K, Memory>>, k: nat, l: Layout)
    requires Records(order, es, l) && k < |order|
    ensures Records(order[..k] + order[k + 1..], es[..k] + es[k + 1..], l)
  {
  }

  lemma RecordsAppend<K>(order: seq<Pair<K, Memory>>, es: seq<M.Entry<K, Memory>>, p: Pair<K, Memory>, l: Layout)
    requires Records(order, es, l) && |p.value| == MemorySize(l)
    ensures Records(order + [p], es + [M.Entry(p.key, p.value)], l)
  {
  }

  lemma KeyAbsent<K>(order: seq<Pair<K, Memory>>, es: seq<M.Entry<K, Memory>>, l: Layout, key: K)
    requires Records(order, es, l) && !M.HasKey(es, key)
    ensures forall i :: 0 <= i < |order| ==> order[i].key != key
  {
    assert forall i :: 0 <= i < |order| ==> es[i].key == order[i].key;
  }

  lemma KeyedAppend<K, V>(order: seq<Pair<K, V>>, p: Pair<K, V>, hash: K -> Hash)
    requires Keyed(order, hash) && p.hashCode == hash(p.key) && forall i :: 0 <= i < |order| ==> order[i].key != p.key
    ensures Keyed(order + [p], hash)
  {
  }

  lemma AllAppend<K, V>(order: seq<Pair<K, V>>, p: Pair<K, V>)
    ensures All(order + [p]) == All(order) + {p}
    ensures p !in order ==> p !in All(order)
  {
  }

  function Reverse<T>(s: seq<T>): seq<T> {
    if s == [] then [] else Reverse(s[1..]) + [s[0]]
  }

  lemma ReverseNone<T>()
    ensures Reverse<T>([]) == []
  {
  }

  lemma {:induction false} ReverseStep<T>(s: seq<T>, i: nat)
    requires i < |s|
    ensures Reverse(s[i..]) == Reverse(s[i + 1..]) + [s[i]]
  {
    assert s[i..][1..] == s[i + 1..];
  }

  /** An iterator (src/primitives/map/map.c:575-788): the pair to visit next, and the last one visited. A
      mutable one reads values behind the key's rounded size, a constant one behind its size. */
  class Iter<K(==)> {
    const map_: Map<K>
    const forward: bool
    const mutable: bool
    var next: Pair?<K, Memory>
    var current: Option<M.Entry<K, seq<Byte>>>

    /** `pos` entries have been visited. */
    ghost predicate At(pos: nat)
      reads this, map_
    {
      && pos <= |map_.order|
      && next == (if pos == |map_.order| then null
                  else if forward then map_.order[pos] else map_.order[|map_.order| - 1 - pos])
    }

    constructor Begin(m: Map<K>, forward: bool, mutable: bool)
      requires m.Valid()
      ensures map_ == m && this.forward == forward && this.mutable == mutable && At(0)
    {
      hide Map.Valid;
      map_ := m;
      this.forward := forward;
      this.mutable := mutable;
      next := if forward then m.iterFirst else m.iterLast;
      current := None;
      new;
      ListEnds(m);
    }

    /** Entry `pos` of the walk is the current one, or all have been visited. */
    ghost predicate Visiting(more: bool, pos: nat)
      reads this, map_
    {
      && Sized(map_.layout, map_.entries)
      && if more then
           && At(pos + 1) && pos < |map_.entries|
           && var i := if forward then pos else |map_.entries| - 1 - pos;
              current == Some(Read(map_.layout, map_.entries, mutable)[i])
         else At(pos) && pos == |map_.entries|
    }

    method Next(ghost pos: nat) returns (more: bool)
      requires map_.Valid() && At(pos)
      modifies this
      ensures Visiting(more, pos) && (!more ==> current == None)
    {
      hide Map.Valid, Read, Sized, ReadAt;
      ListEnds(map_);
      if next == null {
        current := None;
        return false;
      }
      var currentPair := next;
      ghost var i := if forward then pos else |map_.order| - 1 - pos;
      PairAt(map_, i, mutable);
      if forward {
        next := if currentPair == map_.iterLast then null else currentPair.iterAfter;
      } else {
        next := if currentPair == map_.iterFirst then null else currentPair.iterBefore;
      }
      current := Some(M.Entry(currentPair.key,
        ReadAt(map_.layout, currentPair.value, ValueOffset(map_.layout, mutable))));
      return true;
    }
  }

  lemma ListEnds<K>(m: Map<K>)
    requires m.Valid()
    ensures |m.order| == |m.entries| && Sized(m.layout, m.entries)
    ensures m.order == [] ==> m.iterFirst == null && m.iterLast == null
    ensures m.order != [] ==> m.iterFirst == m.order[0] && m.iterLast == m.order[|m.order| - 1]
  {
    hide Indexes, Keyed;
  }

  /** What an iterator at the pair of an entry finds. */
  lemma PairAt<K>(m: Map<K>, i: nat, mutable: bool)
    requires m.Valid() && i < |m.order|
    ensures |m.order| == |m.entries| && Sized(m.layout, m.entries) && |m.order[i].value| == MemorySize(m.layout)
    ensures Read(m.layout, m.entries, mutable)[i]
         == M.Entry(m.order[i].key, ReadAt(m.layout, m.order[i].value, ValueOffset(m.layout, mutable)))
    ensures m.order[i] == m.iterLast <==> i == |m.order| - 1
    ensures m.order[i] == m.iterFirst <==> i == 0
    ensures i < |m.order| - 1 ==> m.order[i].iterAfter == m.order[i + 1]
    ensures i > 0 ==> m.order[i].iterBefore == m.order[i - 1]
  {
    hide Indexes, ReadAt;
    KeyedDistinct(m.order, m.hash);
    hide Keyed;
    assert i > 0 ==> m.order[0] != m.order[i];
  }

  /** Where an iterator reads values. */
  function ValueOffset(l: Layout, mutable: bool): (offset: nat)
    ensures ValidOffset(l, offset)
  {
    if mutable then Round8(l.keySize) else l.keySize
  }

  /** The entries with their values as an iterator reads them. */
  ghost function Read<K>(l: Layout, es: seq<M.Entry<K, Memory>>, mutable: bool): (r: seq<M.Entry<K, seq<Byte>>>)
    requires Sized(l, es)
    ensures |r| == |es|
  {
    View(l, es, ValueOffset(l, mutable))
  }

  /** A mutable iterator reads values at the next multiple of 8 behind the key's start, a constant one at once. */
  lemma ReadOffset<K>(l: Layout, es: seq<M.Entry<K, Memory>>)
    requires Sized(l, es)
    ensures ValidOffset(l, (l.keySize + 7) / 8 * 8)
    ensures Read(l, es, true) == View(l, es, (l.keySize + 7) / 8 * 8) && Read(l, es, false) == View(l, es, l.keySize)
  {
    hide View;
    assert (l.keySize + 7) / 8 * 8 == Round8(l.keySize);
  }

  /** Walking from the first entry to the end visits the entries in insertion order. */
  method CollectForward<K(==)>(m: Map<K>, mutable: bool) returns (es: seq<M.Entry<K, seq<Byte>>>)
    requires m.Valid()
    ensures es == Read(m.layout, m.entries, mutable)
  {
    hide Map.Valid, Read;
    var iter := new Iter.Begin(m, true, mutable);
    es := [];
    var more := iter.Next(0);
    while more
      invariant fresh(iter) && iter.map_ == m && iter.forward && iter.mutable == mutable && m.Valid()
      invariant iter.Visiting(more, |es|) && es == Read(m.layout, m.entries, mutable)[..|es|]
      decreases |m.entries| - |es|
    {
      es := es + [iter.current.value];
      more := iter.Next(|es|);
    }
  }

  /** Walking back from the last entry visits them in exactly the reverse order. */
  method CollectBackward<K(==)>(m: Map<K>, mutable: bool) returns (es: seq<M.Entry<K, seq<Byte>>>)
    requires m.Valid()
    ensures es == Reverse(Read(m.layout, m.entries, mutable))
  {
    hide Map.Valid, Read, Reverse;
    var iter := new Iter.Begin(m, false, mutable);
    ghost var n := |m.entries|;
    es := [];
    ListEnds(m);
    ghost var all := Read(m.layout, m.entries, mutable);
    assert all[n..] == [] && all[0..] == all;
    ReverseNone<M.Entry<K, seq<Byte>>>();
    var more := iter.Next(0);
    while more
      invariant fresh(iter) && iter.map_ == m && !iter.forward && iter.mutable == mutable && m.Valid()
      invariant iter.Visiting(more, |es|) && es == Reverse(all[n - |es|..])
      decreases n - |es|
    {
      ReverseStep(all, n - 1 - |es|);
      es := es + [iter.current.value];
      more := iter.Next(|es|);
    }
  }

  // ---- Whole runs ----

  /** Any calls on a new map, one after the other. */
  method Perform<K(==)>(layout: Layout, hash: K -> Hash, log: seq<Call<K>>) returns (m: Map<K>)
    requires AllFit(layout, log)
    ensures m.Valid() && m.layout == layout && m.State() == Run(layout, log)
  {
    hide Map.Valid, After;
    m := new Map(layout, hash);
    assert log[..0] == [];
    for i := 0 to |log|
      invariant fresh(m) && fresh(m.order)
      invariant m.Valid() && m.layout == layout && m.State() == Run(layout, log[..i])
    {
      assert log[..i + 1][..i] == log[..i];
      match log[i] {
        case InsertCall(key, value, was) => m.Insert(key, value, was);
        case EraseCall(key) => var _ := m.Erase(key);
      }
      forall j | 0 <= j < |m.order| ensures fresh(m.order[j]) {
        assert m.order[j] in m.order;
      }
    }
    assert log[..|log|] == log;
  }

  /** What a map that went through the calls answers: what the typed map of the same calls holds for the key, its
      entries in order and in reverse, and a length that counts them exactly if no present key was inserted. Values
      are right with an exact layout, and with any layout for lookups and mutable iterators of new keys. */
  method Observe<K(==)>(layout: Layout, hash: K -> Hash, log: seq<Call<K>>, key: K, mutable: bool)
    returns (found: Option<seq<Byte>>, len: nat, forward: seq<M.Entry<K, seq<Byte>>>,
             backward: seq<M.Entry<K, seq<Byte>>>)
    requires AllFit(layout, log)
    ensures var ideal := AllTyped(log);
      && (Exact(layout) || M.FreshKeys(ideal) ==>
            found == if key in M.MapRun(ideal) then Some(M.MapRun(ideal)[key]) else None)
      && (Exact(layout) || (mutable && M.FreshKeys(ideal)) ==> forward == M.Run(ideal).entries)
      && (M.FreshKeys(ideal) && (mutable || Exact(layout)) ==> forward == M.Survivors(ideal))
      && backward == Reverse(forward)
      && len == |forward| + M.Reinsertions(ideal)
  {
    hide Map.Valid, Run, Agrees, Reverse, View, Read, Exact, M.Run, M.Lookup, M.FreshKeys, M.MapRun, M.Survivors,
      M.Reinsertions, AllTyped, Round8;
    var m := Perform(layout, hash, log);
    ListEnds(m);
    found := m.Find(key);
    len := m.len;
    forward := CollectForward(m, mutable);
    backward := CollectBackward(m, mutable);
    RunAnswers(layout, log, key, mutable);
  }

  lemma {:induction false} RunAnswers<K>(l: Layout, log: seq<Call<K>>, key: K, mutable: bool)
    requires AllFit(l, log)
    ensures var ideal, s := AllTyped(log), Run(l, log);
      && (Exact(l) || M.FreshKeys(ideal) ==>
            M.Lookup(View(l, s.entries, Round8(l.keySize)), key)
            == if key in M.MapRun(ideal) then Some(M.MapRun(ideal)[key]) else None)
      && (Exact(l) || (mutable && M.FreshKeys(ideal)) ==> Read(l, s.entries, mutable) == M.Run(ideal).entries)
      && (M.FreshKeys(ideal) ==> M.Run(ideal).entries == M.Survivors(ideal))
      && s.len == |s.entries| + M.Reinsertions(ideal)
  {
    hide Run, M.Run, M.FreshKeys, M.Lookup, M.MapRun, M.Survivors, M.Reinsertions, View, Exact;
    var ideal := AllTyped(log);
    M.LookupRefinement(ideal, key);
    M.LenCountsEntries(ideal);
    RunKeys(l, log);
    if Exact(l) || M.FreshKeys(ideal) {
      RunView(l, log, Round8(l.keySize));
    }
    if Exact(l) || (mutable && M.FreshKeys(ideal)) {
      RunView(l, log, ValueOffset(l, mutable));
    }
    if M.FreshKeys(ideal) {
      M.InsertionOrder(ideal);
    }
  }
}
