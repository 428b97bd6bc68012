/** The memory of a map's pair (src/primitives/map/map.c:51-72, 200-212, 238-244, 575-788). A new pair's value
    is stored behind the key's size rounded up to 8 bytes, and that is where lookups and the mutable iterators
    read it. Overwriting a value and the constant iterators use the size as it is. */
module PairMemory {
  import opened Words
  import opened Options
  import M = OrderedMap

  datatype Layout = Layout(keySize: nat, valueSize: nat)

  /** The bytes of a pair from the end of its key on. */
  type Memory = seq<Byte>

  function Round8(n: nat): (r: nat)
    ensures r % 8 == 0 && n <= r < n + 8
    ensures r == n <==> n % 8 == 0
  {
    if n % 8 == 0 then n else n + (8 - n % 8)
  }

  function MemorySize(l: Layout): nat {
    Round8(l.keySize) - l.keySize + Round8(l.valueSize)
  }

  /** Where a value may start, counted from the start of the key. */
  predicate ValidOffset(l: Layout, offset: nat) {
    offset == l.keySize || offset == Round8(l.keySize)
  }

  /** `pair_value` and a read of the value's size. */
  function ReadAt(l: Layout, mem: Memory, offset: nat): (value: seq<Byte>)
    requires |mem| == MemorySize(l) && ValidOffset(l, offset)
    ensures |value| == l.valueSize
  {
    mem[offset - l.keySize..offset - l.keySize + l.valueSize]
  }

  /** `memcpy` of a value to `pair_value_mut`. */
  function WriteAt(l: Layout, mem: Memory, offset: nat, value: seq<Byte>): (r: Memory)
    requires |mem| == MemorySize(l) && ValidOffset(l, offset) && |value| == l.valueSize
    ensures |r| == |mem|
  {
    mem[..offset - l.keySize] + value + mem[offset - l.keySize + l.valueSize..]
  }

  /** A new pair; `was` is what the allocated memory held. */
  function NewPair(l: Layout, was: Memory, value: seq<Byte>): (r: Memory)
    requires |was| == MemorySize(l) && |value| == l.valueSize
    ensures |r| == MemorySize(l)
  {
    WriteAt(l, was, Round8(l.keySize), value)
  }

  /** Overwriting, in `group_insert`. */
  function Overwritten(l: Layout, mem: Memory, value: seq<Byte>): (r: Memory)
    requires |mem| == MemorySize(l) && |value| == l.valueSize
    ensures |r| == MemorySize(l)
  {
    WriteAt(l, mem, l.keySize, value)
  }

  /** A pair's bytes behind its key: a new value starts at the next multiple of 8 and leaves the gap in front of
      it as it was, an overwriting one starts at once. */
  lemma PairBytes(l: Layout, mem: Memory, value: seq<Byte>, i: nat)
    requires |mem| == MemorySize(l) && |value| == l.valueSize && i < |mem|
    ensures var gap := (l.keySize + 7) / 8 * 8 - l.keySize;
      && |mem| == gap + (l.valueSize + 7) / 8 * 8
      && NewPair(l, mem, value)[i] == (if gap <= i < gap + |value| then value[i - gap] else mem[i])
      && Overwritten(l, mem, value)[i] == (if i < |value| then value[i] else mem[i])
      && (i < |value| ==>
            ReadAt(l, mem, l.keySize + gap)[i] == mem[gap + i] && ReadAt(l, mem, l.keySize)[i] == mem[i])
  {
    var gap := (l.keySize + 7) / 8 * 8 - l.keySize;
    assert gap == Round8(l.keySize) - l.keySize;
  }

  /** The layouts with which it makes no difference that sizes are not rounded everywhere. */
  predicate Exact(l: Layout) {
    l.keySize % 8 == 0 || l.valueSize == 0
  }

  // ---- Entries ----

  ghost predicate Sized<K>(l: Layout, es: seq<M.Entry<K, Memory>>) {
    forall i :: 0 <= i < |es| ==> |es[i].value| == MemorySize(l)
  }

  /** The entries as read at an offset. */
  ghost function View<K>(l: Layout, es: seq<M.Entry<K, Memory>>, offset: nat): (r: seq<M.Entry<K, seq<Byte>>>)
    requires Sized(l, es) && ValidOffset(l, offset)
    ensures |r| == |es|
    ensures forall i :: 0 <= i < |es| ==> r[i] == M.Entry(es[i].key, ReadAt(l, es[i].value, offset))
  {
    if es == [] then [] else [M.Entry(es[0].key, ReadAt(l, es[0].value, offset))] + View(l, es[1..], offset)
  }

  /** The memory the key's pair has after an insert. */
  ghost function Stored<K>(l: Layout, es: seq<M.Entry<K, Memory>>, key: K, value: seq<Byte>, was: Memory): (r: Memory)
    requires Sized(l, es) && |was| == MemorySize(l) && |value| == l.valueSize
    ensures |r| == MemorySize(l)
  {
    match M.Lookup(es, key)
    case None => NewPair(l, was, value)
    case Some(mem) => LookupSized(l, es, key); Overwritten(l, mem, value)
  }

  lemma {:induction false} LookupSized<K>(l: Layout, es: seq<M.Entry<K, Memory>>, key: K)
    requires Sized(l, es) && M.Lookup(es, key).Some?
    ensures |M.Lookup(es, key).value| == MemorySize(l)
  {
    if es[0].key != key {
      LookupSized(l, es[1..], key);
    }
  }

  ghost function InsertEntry<K>(l: Layout, es: seq<M.Entry<K, Memory>>, key: K, value: seq<Byte>,
                                was: Memory): seq<M.Entry<K, Memory>>
    requires Sized(l, es) && |was| == MemorySize(l) && |value| == l.valueSize
  {
    M.Insert(es, key, Stored(l, es, key, value, was))
  }

  lemma {:induction false} InsertView<K>(l: Layout, es: seq<M.Entry<K, Memory>>, key: K, mem: Memory, offset: nat)
    requires Sized(l, es) && |mem| == MemorySize(l) && ValidOffset(l, offset)
    ensures Sized(l, M.Insert(es, key, mem))
    ensures View(l, M.Insert(es, key, mem), offset) == M.Insert(View(l, es, offset), key, ReadAt(l, mem, offset))
  {
    hide ReadAt;
    if es != [] && es[0].key != key {
      InsertView(l, es[1..], key, mem, offset);
      assert M.Insert(es, key, mem)[1..] == M.Insert(es[1..], key, mem);
    }
    assert View(l, es, offset) == if es == [] then [] else [View(l, es, offset)[0]] + View(l, es[1..], offset);
  }

  lemma {:induction false} EraseView<K>(l: Layout, es: seq<M.Entry<K, Memory>>, key: K, offset: nat)
    requires Sized(l, es) && ValidOffset(l, offset)
    ensures Sized(l, M.Erase(es, key)) && View(l, M.Erase(es, key), offset) == M.Erase(View(l, es, offset), key)
  {
    hide ReadAt;
    if es != [] && es[0].key != key {
      EraseView(l, es[1..], key, offset);
      assert M.Erase(es, key)[1..] == M.Erase(es[1..], key);
    }
  }

  lemma {:induction false} LookupView<K>(l: Layout, es: seq<M.Entry<K, Memory>>, key: K, offset: nat)
    requires Sized(l, es) && ValidOffset(l, offset)
    ensures M.Lookup(es, key).None? <==> M.Lookup(View(l, es, offset), key).None?
    ensures var mem := M.Lookup(es, key);
            mem.Some? ==> |mem.value| == MemorySize(l)
                          && M.Lookup(View(l, es, offset), key) == Some(ReadAt(l, mem.value, offset))
  {
    hide ReadAt;
    if es != [] && es[0].key != key {
      LookupView(l, es[1..], key, offset);
    }
  }

  // ---- Runs ----

  datatype Call<K> = InsertCall(key: K, value: seq<Byte>, was: Memory) | EraseCall(key: K)

  predicate Fits<K>(l: Layout, c: Call<K>) {
    c.InsertCall? ==> |c.value| == l.valueSize && |c.was| == MemorySize(l)
  }

  ghost predicate AllFit<K>(l: Layout, log: seq<Call<K>>) {
    forall i :: 0 <= i < |log| ==> Fits(l, log[i])
  }

  /** The entries in memory and the `len` field after a call. */
  ghost function After<K>(l: Layout, s: M.State<K, Memory>, c: Call<K>): M.State<K, Memory>
    requires Sized(l, s.entries) && Fits(l, c)
  {
    match c
    case InsertCall(k, v, was) => M.State(InsertEntry(l, s.entries, k, v, was), s.len + 1)
    case EraseCall(k) => M.State(M.Erase(s.entries, k), s.len - (|s.entries| - |M.Erase(s.entries, k)|))
  }

  ghost function Run<K>(l: Layout, log: seq<Call<K>>): (s: M.State<K, Memory>)
    requires AllFit(l, log)
    ensures Sized(l, s.entries)
  {
    if log == [] then M.State([], 0)
    else
      var n := |log| - 1;
      var before := Run(l, log[..n]);
      AfterSized(l, before, log[n]);
      After(l, before, log[n])
  }

  lemma AfterSized<K>(l: Layout, s: M.State<K, Memory>, c: Call<K>)
    requires Sized(l, s.entries) && Fits(l, c)
    ensures Sized(l, After(l, s, c).entries)
  {
    match c
    case InsertCall(k, v, was) => InsertView(l, s.entries, k, Stored(l, s.entries, k, v, was), l.keySize);
    case EraseCall(k) => EraseView(l, s.entries, k, l.keySize);
  }

  /** The same call on a map with typed values. */
  function Typed<K>(c: Call<K>): M.Call<K, seq<Byte>> {
    match c
    case InsertCall(k, v, _) => M.InsertCall(k, v)
    case EraseCall(k) => M.EraseCall(k)
  }

  function AllTyped<K>(log: seq<Call<K>>): (r: seq<M.Call<K, seq<Byte>>>)
    ensures |r| == |log| && forall i :: 0 <= i < |log| ==> r[i] == Typed(log[i])
  {
    if log == [] then [] else AllTyped(log[..|log| - 1]) + [Typed(log[|log| - 1])]
  }

  /** What is read at the offset is the typed map. */
  ghost predicate Agrees<K>(l: Layout, log: seq<Call<K>>, offset: nat)
    requires AllFit(l, log) && ValidOffset(l, offset)
  {
    View(l, Run(l, log).entries, offset) == M.Run(AllTyped(log)).entries
  }

  /** A value just stored for a key is read back at this offset. */
  ghost predicate ReadsBack<K>(l: Layout, s: M.State<K, Memory>, c: Call<K>, offset: nat)
    requires Sized(l, s.entries) && Fits(l, c) && ValidOffset(l, offset)
  {
    c.InsertCall? ==> ReadAt(l, Stored(l, s.entries, c.key, c.value, c.was), offset) == c.value
  }

  lemma AfterView<K>(l: Layout, s: M.State<K, Memory>, c: Call<K>, offset: nat)
    requires Sized(l, s.entries) && Fits(l, c) && ValidOffset(l, offset) && ReadsBack(l, s, c, offset)
    ensures var r := After(l, s, c);
            && Sized(l, r.entries)
            && M.After(M.State(View(l, s.entries, offset), s.len), Typed(c))
              == M.State(View(l, r.entries, offset), r.len)
  {
    hide ReadAt;
    match c {
      case InsertCall(k, v, was) => InsertView(l, s.entries, k, Stored(l, s.entries, k, v, was), offset);
      case EraseCall(k) => EraseView(l, s.entries, k, offset);
    }
  }

  lemma NewPairRead(l: Layout, was: Memory, value: seq<Byte>)
    requires |was| == MemorySize(l) && |value| == l.valueSize
    ensures ReadAt(l, NewPair(l, was, value), Round8(l.keySize)) == value
    ensures ReadAt(l, Overwritten(l, was, value), l.keySize) == value
  {
  }

  /** With an exact layout every stored value is read back, and with any layout that of a new pair is by
      the lookups and the mutable iterators. */
  lemma StoredRead<K>(l: Layout, s: M.State<K, Memory>, c: Call<K>, offset: nat)
    requires Sized(l, s.entries) && Fits(l, c) && ValidOffset(l, offset)
    requires Exact(l) || (offset == Round8(l.keySize) && (c.InsertCall? ==> M.Lookup(s.entries, c.key).None?))
    ensures ReadsBack(l, s, c, offset)
  {
    if c.InsertCall? {
      match M.Lookup(s.entries, c.key)
      case None => NewPairRead(l, c.was, c.value);
      case Some(mem) =>
        LookupSized(l, s.entries, c.key);
        NewPairRead(l, mem, c.value);
    }
  }

  lemma {:induction false} RunView<K>(l: Layout, log: seq<Call<K>>, offset: nat)
    requires AllFit(l, log) && ValidOffset(l, offset)
    requires Exact(l) || (offset == Round8(l.keySize) && M.FreshKeys(AllTyped(log)))
    ensures Agrees(l, log, offset) && Run(l, log).len == M.Run(AllTyped(log)).len
  {
    if log != [] {
      var n := |log| - 1;
      var before, ideal := Run(l, log[..n]), AllTyped(log);
      assert ideal[..n] == AllTyped(log[..n]);
      RunView(l, log[..n], offset);
      LookupFresh(l, before, log[n], offset);
      StoredRead(l, before, log[n], offset);
      AfterView(l, before, log[n], offset);
    }
  }

  /** A key that is absent from the entries as read is absent from those in memory. */
  lemma LookupFresh<K>(l: Layout, s: M.State<K, Memory>, c: Call<K>, offset: nat)
    requires Sized(l, s.entries) && ValidOffset(l, offset)
    ensures !M.HasKey(View(l, s.entries, offset), c.key) ==> M.Lookup(s.entries, c.key).None?
  {
    LookupView(l, s.entries, c.key, offset);
    if !M.HasKey(View(l, s.entries, offset), c.key) {
      M.LookupAbsent(View(l, s.entries, offset), c.key);
    }
  }

  ghost predicate SameKeys<K, V, W>(es: seq<M.Entry<K, V>>, fs: seq<M.Entry<K, W>>) {
    |es| == |fs| && forall i :: 0 <= i < |es| ==> es[i].key == fs[i].key
  }

  /** Which keys are there afterwards does not depend on values. */
  lemma {:induction false} SameKeysAfter<K, V, W>(es: seq<M.Entry<K, V>>, fs: seq<M.Entry<K, W>>, key: K, v: V, w: W)
    requires SameKeys(es, fs)
    ensures SameKeys(M.Insert(es, key, v), M.Insert(fs, key, w)) && SameKeys(M.Erase(es, key), M.Erase(fs, key))
  {
    if es != [] && es[0].key != key {
      SameKeysAfter(es[1..], fs[1..], key, v, w);
    }
  }

  /** With any layout, the keys and the `len` field are those of the typed map. */
  lemma {:induction false} RunKeys<K>(l: Layout, log: seq<Call<K>>)
    requires AllFit(l, log)
    ensures SameKeys(Run(l, log).entries, M.Run(AllTyped(log)).entries) && Run(l, log).len == M.Run(AllTyped(log)).len
  {
    if log != [] {
      var n := |log| - 1;
      var before, ideal := Run(l, log[..n]), AllTyped(log);
      assert ideal[..n] == AllTyped(log[..n]);
      RunKeys(l, log[..n]);
      var es := M.Run(ideal[..n]).entries;
      match log[n] {
        case InsertCall(k, v, was) => SameKeysAfter(before.entries, es, k, Stored(l, before.entries, k, v, was), v);
        case EraseCall(k) => if es != [] { SameKeysAfter(before.entries, es, k, before.entries[0].value, es[0].value); }
      }
    }
  }

  function Repeat(b: Byte, n: nat): (r: seq<Byte>)
    ensures |r| == n && forall i :: 0 <= i < n ==> r[i] == b
  {
    if n == 0 then [] else Repeat(b, n - 1) + [b]
  }

  /** A constant iterator reads the byte behind a new pair's key, which no one has written. */
  lemma NewPairMisread(l: Layout, was: Memory, value: seq<Byte>)
    requires !Exact(l) && |was| == MemorySize(l) && |value| == l.valueSize
    ensures MemorySize(l) > 0 && ReadAt(l, NewPair(l, was, value), l.keySize)[0] == was[0]
  {
  }

  /** One insert that the constant iterators misread. */
  lemma {:induction false} OneInsert<K>(l: Layout, key: K, value: seq<Byte>, was: Memory, log: seq<Call<K>>)
    requires !Exact(l) && |value| == l.valueSize && |was| == MemorySize(l) > 0 && value[0] != was[0]
    requires log == [InsertCall(key, value, was)]
    ensures AllFit(l, log) && !Agrees(l, log, l.keySize)
  {
    hide ReadAt, WriteAt, MemorySize, Round8;
    assert log[..0] == [] && AllTyped(log)[..0] == [];
    var mem := NewPair(l, was, value);
    assert M.Lookup(Run(l, log[..0]).entries, key) == None;
    assert Run(l, log).entries == [M.Entry(key, mem)];
    assert M.Run(AllTyped(log)).entries == [M.Entry(key, value)];
    NewPairMisread(l, was, value);
    assert View(l, [M.Entry(key, mem)], l.keySize)[0].value[0] == was[0];
  }

  /** An overwrite leaves the last byte that a lookup reads as it was. */
  lemma OverwrittenShort(l: Layout, mem: Memory, value: seq<Byte>)
    requires !Exact(l) && |mem| == MemorySize(l) && |value| == l.valueSize
    ensures var offset, n := Round8(l.keySize), l.valueSize;
            ReadAt(l, Overwritten(l, mem, value), offset)[n - 1] == ReadAt(l, mem, offset)[n - 1]
  {
  }

  /** Two inserts for one key after which a lookup finds neither value. */
  lemma {:induction false} TwoInserts<K>(l: Layout, key: K, v0: seq<Byte>, v1: seq<Byte>, was: Memory,
                                         log: seq<Call<K>>)
    requires !Exact(l) && |v0| == |v1| == l.valueSize && |was| == MemorySize(l)
    requires v0[l.valueSize - 1] != v1[l.valueSize - 1]
    requires log == [InsertCall(key, v0, was), InsertCall(key, v1, was)]
    ensures AllFit(l, log) && !Agrees(l, log, Round8(l.keySize))
  {
    hide ReadAt, WriteAt, MemorySize, Round8;
    var offset, n := Round8(l.keySize), l.valueSize;
    var one := log[..1];
    assert one[..0] == [] && AllTyped(one)[..0] == [] && AllTyped(log)[..1] == AllTyped(one);
    var mem0 := NewPair(l, was, v0);
    assert M.Lookup(Run(l, one[..0]).entries, key) == None;
    assert Run(l, one).entries == [M.Entry(key, mem0)];
    assert M.Run(AllTyped(one)).entries == [M.Entry(key, v0)];
    var mem1 := Overwritten(l, mem0, v1);
    assert M.Lookup([M.Entry(key, mem0)], key) == Some(mem0);
    assert Run(l, log).entries == [M.Entry(key, mem1)];
    assert M.Run(AllTyped(log)).entries == [M.Entry(key, v1)];
    NewPairRead(l, was, v0);
    OverwrittenShort(l, mem0, v1);
    assert View(l, [M.Entry(key, mem1)], offset)[0].value[n - 1] == v0[n - 1];
  }

  /** The constant iterators see what was inserted, whatever is inserted and erased and whatever memory the
      allocator gives, if and only if the key's size is a multiple of 8 or values have no bytes. */
  lemma {:induction false} ConstViewExactly<K(!new)>(l: Layout, key: K)
    ensures (forall log: seq<Call<K>> :: AllFit(l, log) ==> Agrees(l, log, l.keySize)) <==> Exact(l)
  {
    if Exact(l) {
      forall log: seq<Call<K>> | AllFit(l, log) ensures Agrees(l, log, l.keySize) {
        RunView(l, log, l.keySize);
      }
    } else {
      var value, was := Repeat(0, l.valueSize), Repeat(1, MemorySize(l));
      OneInsert(l, key, value, was, [InsertCall(key, value, was)]);
    }
  }

  /** So do the lookups and the mutable iterators if present keys may be inserted again. */
  lemma {:induction false} OverwriteExactly<K(!new)>(l: Layout, key: K)
    ensures (forall log: seq<Call<K>> :: AllFit(l, log) ==> Agrees(l, log, Round8(l.keySize))) <==> Exact(l)
  {
    var offset := Round8(l.keySize);
    if Exact(l) {
      forall log: seq<Call<K>> | AllFit(l, log) ensures Agrees(l, log, offset) {
        RunView(l, log, offset);
      }
    } else {
      var zeroes := Repeat(0, MemorySize(l));
      var v0, v1 := Repeat(0, l.valueSize), Repeat(1, l.valueSize);
      TwoInserts(l, key, v0, v1, zeroes, [InsertCall(key, v0, zeroes), InsertCall(key, v1, zeroes)]);
    }
  }

  /** A key of 4 bytes, like a character's, and a value of 8: the constant iterators give the 4 bytes between
      key and value and the value's first half, and an overwrite is half visible to a lookup. */
  lemma FourByteKey(l: Layout, was: Memory, stored: Memory, changed: Memory)
    requires l == Layout(4, 8) && |was| == MemorySize(l) && was[..4] == [9, 9, 9, 9]
    requires stored == NewPair(l, was, [1, 2, 3, 4, 5, 6, 7, 8])
    requires changed == Overwritten(l, stored, [11, 12, 13, 14, 15, 16, 17, 18])
    ensures ReadAt(l, stored, 8) == [1, 2, 3, 4, 5, 6, 7, 8] && ReadAt(l, stored, 4) == [9, 9, 9, 9, 1, 2, 3, 4]
    ensures ReadAt(l, changed, 8) == [15, 16, 17, 18, 5, 6, 7, 8]
  {
    assert was[12..] == [];
    assert stored == [9, 9, 9, 9, 1, 2, 3, 4, 5, 6, 7, 8];
    assert stored[8..] == [5, 6, 7, 8];
    assert changed == [11, 12, 13, 14, 15, 16, 17, 18, 5, 6, 7, 8];
  }
}
