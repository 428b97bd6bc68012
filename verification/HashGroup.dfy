/** One group of the hash map (src/primitives/map/map.c:98-269, src/util/hash.h:50-67, src/util/simd.c:16-120):
    a buffer of one-byte tags beside a buffer of pointers to pairs, searched 32 tags at a time. */
module HashGroup {
  import opened Words
  import opened Bits

  const GROUP_ALLOC_SIZE: nat := 32

  type Hash = Word
  type Tag = t: int | 0 <= t < 256

  /** The upper 57 bits choose the group, the lower 7 become the tag; the tag's high bit marks a used slot. */
  function GroupBits(h: Hash): nat {
    h / 128
  }

  function TagOf(h: Hash): (t: Tag)
    ensures t != 0
  {
    h % 128 + 128
  }

  /** The C expressions for the two halves of a hash. */
  lemma HashBits(h: Hash)
    ensures ShiftRight(And(h, 0xffff_ffff_ffff_ff80), 7) == GroupBits(h)
    ensures Or(And(h, 0x7f), 0x80) == TagOf(h)
  {
    hide And, Or;
    assert Power(7) == 128;
    Power57();
    var upper := 0x1ff_ffff_ffff_ffff;
    MaskHigh(h, upper, 7);
    MaskLow(h / 128, 57);
    assert ShiftLeft(upper, 7) == 0xffff_ffff_ffff_ff80 && ShiftRight(h, 7) == h / 128;
    MaskLow(h, 7);
    OrSwap(h % 128);
  }

  lemma OrSwap(low: nat)
    requires low < 128
    ensures Or(low, 0x80) == low + 0x80
  {
    hide Or;
    assert Power(7) == 128 && ShiftLeft(1, 7) == 128;
    OrDisjoint(low, 1, 7);
  }

  /** A map entry, at a fixed place in memory while it lives. The list links and the value change. */
  class Pair<K(==), V> {
    const hashCode: Hash
    const key: K
    var value: V
    var iterBefore: Pair?<K, V>
    var iterAfter: Pair?<K, V>

    constructor (hashCode: Hash, key: K, value: V, iterBefore: Pair?<K, V>)
      ensures this.hashCode == hashCode && this.key == key && this.value == value
      ensures this.iterBefore == iterBefore && iterAfter == null
    {
      this.hashCode, this.key, this.value, this.iterBefore := hashCode, key, value, iterBefore;
      iterAfter := null;
    }
  }

  /** The buffers of a group. Slots whose tag is zero are free, whatever their pointer is. */
  datatype Group<!K(==), !V> = Group(tags: seq<Tag>, pairs: seq<Pair?<K, V>>, pairCount: nat)

  function Used(tags: seq<Tag>): nat {
    if tags == [] then 0 else Used(tags[..|tags| - 1]) + (if tags[|tags| - 1] != 0 then 1 else 0)
  }

  ghost predicate Live<K, V>(g: Group<K, V>, i: int) {
    0 <= i < |g.tags| && g.tags[i] != 0
  }

  ghost predicate GroupOk<K, V>(g: Group<K, V>) {
    && |g.tags| == |g.pairs| && |g.tags| % 32 == 0
    && g.pairCount == Used(g.tags)
    && (forall i :: Live(g, i) ==> g.pairs[i] != null && g.tags[i] == TagOf(g.pairs[i].hashCode))
    && (forall i, j :: Live(g, i) && Live(g, j) && i != j ==> g.pairs[i] != g.pairs[j])
  }

  /** The pairs that sit in a used slot. */
  ghost function Members<K, V>(g: Group<K, V>): set<Pair?<K, V>>
    requires |g.tags| == |g.pairs|
  {
    set i | 0 <= i < |g.tags| && g.tags[i] != 0 :: g.pairs[i]
  }

  /** The used slots come first, as compaction and rehashing leave them. */
  ghost predicate Compact<K, V>(g: Group<K, V>) {
    forall i :: 0 <= i < |g.tags| ==> (g.tags[i] != 0 <==> i < g.pairCount)
  }

  // ---- Counting used slots ----

  lemma {:induction false} UsedUpdate(tags: seq<Tag>, i: nat, t: Tag)
    requires i < |tags|
    ensures Used(tags[i := t]) == Used(tags) - (if tags[i] != 0 then 1 else 0) + (if t != 0 then 1 else 0)
  {
    var n := |tags| - 1;
    if i < n {
      UsedUpdate(tags[..n], i, t);
      assert tags[i := t][..n] == tags[..n][i := t];
    } else {
      assert tags[i := t][..n] == tags[..n];
    }
  }

  lemma {:induction false} UsedBound(tags: seq<Tag>)
    ensures Used(tags) <= |tags|
    ensures (forall i :: 0 <= i < |tags| ==> tags[i] != 0) ==> Used(tags) == |tags|
    ensures (forall i :: 0 <= i < |tags| ==> tags[i] == 0) <==> Used(tags) == 0
  {
    if tags != [] {
      UsedBound(tags[..|tags| - 1]);
    }
  }

  /** Fewer used slots than capacity leaves a free one, so an insertion always finds its place. */
  lemma FreeSlotExists(tags: seq<Tag>)
    requires Used(tags) < |tags|
    ensures exists i :: 0 <= i < |tags| && tags[i] == 0
  {
    UsedBound(tags);
  }

  // ---- The 32-wide searches ----

  /** The comparison mask: bit `i` says whether the `i`-th of 32 tags equals `value`. */
  method CompareMask(tags: seq<Tag>, start: nat, value: Tag) returns (mask: seq<bool>)
    requires start + 32 <= |tags|
    ensures |mask| == 32 && forall j :: start <= j < start + 32 ==> (mask[j - start] <==> tags[j] == value)
  {
    mask := seq(32, _ => false);
    for i := 0 to 32
      invariant |mask| == 32
      invariant forall k :: 0 <= k < 32 ==> (mask[k] <==> k < i && tags[start + k] == value)
    {
      if tags[start + i] == value {
        mask := mask[i := true];
      }
    }
  }

  /** The lowest set bit of a mask, if there is one. */
  method CountTrailingZeroes(mask: seq<bool>) returns (found: bool, index: nat)
    ensures found <==> true in mask
    ensures found ==> index < |mask| && mask[index] && forall j :: 0 <= j < index ==> !mask[j]
  {
    index := 0;
    while index < |mask| && !mask[index]
      invariant index <= |mask|
      invariant forall j :: 0 <= j < index ==> !mask[j]
    {
      index := index + 1;
    }
    found := index < |mask|;
  }

  method IndexOfFirstZero(tags: seq<Tag>, start: nat) returns (found: bool, index: nat)
    requires start + 32 <= |tags|
    ensures found <==> exists i :: start <= i < start + 32 && tags[i] == 0
    ensures found ==> index < 32 && tags[start + index] == 0
    ensures found ==> forall j :: start <= j < start + index ==> tags[j] != 0
  {
    index := 0;
    while index < 32 && tags[start + index] != 0
      invariant index <= 32
      invariant forall j :: start <= j < start + index ==> tags[j] != 0
    {
      index := index + 1;
    }
    found := index < 32;
    if found {
      assert tags[start + index] == 0;
    }
  }

  ghost predicate Matches<K, V>(g: Group<K, V>, key: K, tag: Tag, i: int)
    requires GroupOk(g) && tag != 0
  {
    0 <= i < |g.tags| && g.tags[i] == tag && g.pairs[i].key == key
  }

  /** The bit scan is a linear search: it finds the first used slot with this tag and key, and reads
      only used slots. -1 when there is none. */
  method GroupFind<K(==), V>(g: Group<K, V>, key: K, tag: Tag) returns (r: int)
    requires GroupOk(g) && tag != 0
    ensures -1 <= r < |g.tags|
    ensures r >= 0 ==> Matches(g, key, tag, r) && forall j :: 0 <= j < r ==> !Matches(g, key, tag, j)
    ensures r == -1 ==> forall j :: 0 <= j < |g.tags| ==> !Matches(g, key, tag, j)
  {
    var i := 0;
    while i < |g.tags|
      invariant 0 <= i <= |g.tags| && i % 32 == 0
      invariant forall j :: 0 <= j < i ==> !Matches(g, key, tag, j)
    {
      var resultMask := CompareMask(g.tags, i, tag);
      ghost var done := 0;  // slots below i + done have been looked at
      while true
        invariant |resultMask| == 32 && done <= 32
        invariant forall j :: i <= j < i + 32 ==> (resultMask[j - i] <==> j >= i + done && g.tags[j] == tag)
        invariant forall j :: 0 <= j < i + done ==> !Matches(g, key, tag, j)
        decreases 32 - done
      {
        var found, index := CountTrailingZeroes(resultMask);
        if !found {
          forall j | i <= j < i + 32 ensures !Matches(g, key, tag, j) {
            assert resultMask[j - i] ==> true in resultMask;
          }
          break;
        }
        var actualIndex := index + i;
        forall j | i + done <= j < actualIndex ensures !Matches(g, key, tag, j) {
          assert !resultMask[j - i];
        }
        if g.pairs[actualIndex].key == key {
          return actualIndex;
        }
        resultMask := resultMask[index := false];
        done := index + 1;
      }
      assert forall j :: 0 <= j < i + 32 ==> !Matches(g, key, tag, j);
      i := i + 32;
    }
    return -1;
  }

  // ---- Changing a group ----

  function GroupInit<K, V>(): Group<K, V> {
    Group(seq(GROUP_ALLOC_SIZE, _ => 0), seq(GROUP_ALLOC_SIZE, _ => null), 0)
  }

  lemma GroupInitOk<K, V>()
    ensures GroupOk(GroupInit<K, V>()) && Compact(GroupInit<K, V>()) && Members(GroupInit<K, V>()) == {}
  {
    UsedBound(GroupInit<K, V>().tags);
  }

  /** Filling a free slot. */
  function Put<K, V>(g: Group<K, V>, i: nat, p: Pair<K, V>): Group<K, V>
    requires i < |g.tags| == |g.pairs|
  {
    Group(g.tags[i := TagOf(p.hashCode)], g.pairs[i := p], g.pairCount + 1)
  }

  lemma PutMembers<K, V>(g: Group<K, V>, i: nat, p: Pair<K, V>)
    requires |g.tags| == |g.pairs| && i < |g.tags| && g.tags[i] == 0
    ensures Members(Put(g, i, p)) == Members(g) + {p}
    ensures forall j :: Live(g, j) ==> g.pairs[j] in Members(g)
  {
    hide Used, TagOf;
    var r := Put(g, i, p);
    assert forall j :: Live(g, j) ==> Live(r, j) && r.pairs[j] == g.pairs[j];
    assert Live(r, i) && r.pairs[i] == p;
    forall x | x in Members(g) + {p} ensures x in Members(r) {
      if x != p {
        var j :| Live(g, j) && g.pairs[j] == x;
        assert Live(r, j) && r.pairs[j] == x;
      }
    }
  }

  lemma PutOk<K, V>(g: Group<K, V>, i: nat, p: Pair<K, V>)
    requires GroupOk(g) && i < |g.tags| && g.tags[i] == 0 && p !in Members(g)
    ensures GroupOk(Put(g, i, p)) && Members(Put(g, i, p)) == Members(g) + {p}
    ensures Compact(g) && i == g.pairCount ==> Compact(Put(g, i, p))
  {
    hide Used, TagOf, Members;
    var r := Put(g, i, p);
    UsedUpdate(g.tags, i, TagOf(p.hashCode));
    PutMembers(g, i, p);
    assert forall j :: Live(r, j) ==> if j == i then r.pairs[j] == p else Live(g, j) && r.pairs[j] == g.pairs[j];
  }

  /** Zeroing a tag frees its slot; the pointer stays behind as garbage. */
  function Clear<K, V>(g: Group<K, V>, i: nat): Group<K, V>
    requires i < |g.tags| == |g.pairs| && g.pairCount > 0
  {
    g.(tags := g.tags[i := 0], pairCount := g.pairCount - 1)
  }

  lemma ClearOk<K, V>(g: Group<K, V>, i: nat)
    requires GroupOk(g) && Live(g, i)
    ensures g.pairCount > 0
    ensures GroupOk(Clear(g, i)) && Members(Clear(g, i)) == Members(g) - {g.pairs[i]}
  {
    UsedUpdate(g.tags, i, 0);
    var r := Clear(g, i);
    assert forall j :: Live(r, j) <==> Live(g, j) && j != i;
    forall x | x in Members(g) && x != g.pairs[i] ensures x in Members(r) {
      var j :| Live(g, j) && g.pairs[j] == x;
      assert Live(r, j) && r.pairs[j] == x;
    }
    forall x | x in Members(r) ensures x in Members(g) && x != g.pairs[i] {
      var j :| Live(r, j) && r.pairs[j] == x;
      assert Live(g, j) && g.pairs[j] == x;
    }
  }

  /** Which slots of `g` the first `|src|` slots of the new buffers were copied from. */
  ghost predicate CopiedFrom<K, V>(g: Group<K, V>, upTo: nat, tags: seq<Tag>, pairs: seq<Pair?<K, V>>, src: seq<nat>)
    requires |g.tags| == |g.pairs| && |tags| == |pairs|
  {
    && upTo <= |g.tags| && |src| <= |tags|
    && (forall k :: 0 <= k < |src| ==> src[k] < upTo && Live(g, src[k])
                                       && tags[k] == g.tags[src[k]] && pairs[k] == g.pairs[src[k]])
    && (forall k, l :: 0 <= k < l < |src| ==> src[k] < src[l])
    && (forall k :: |src| <= k < |tags| ==> tags[k] == 0)
    && (forall i :: 0 <= i < upTo && Live(g, i) ==> i in src)
  }

  lemma CopyNone<K, V>(g: Group<K, V>, tags: seq<Tag>, pairs: seq<Pair?<K, V>>)
    requires |g.tags| == |g.pairs| && |tags| == |pairs| && forall k :: 0 <= k < |tags| ==> tags[k] == 0
    ensures CopiedFrom(g, 0, tags, pairs, []) && Used(g.tags[..0]) == 0
  {
  }

  lemma CopySkip<K, V>(g: Group<K, V>, i: nat, tags: seq<Tag>, pairs: seq<Pair?<K, V>>, src: seq<nat>)
    requires |g.tags| == |g.pairs| && |tags| == |pairs| && i < |g.tags| && g.tags[i] == 0
    requires CopiedFrom(g, i, tags, pairs, src)
    ensures CopiedFrom(g, i + 1, tags, pairs, src)
  {
  }

  lemma CopyOne<K, V>(g: Group<K, V>, i: nat, tags: seq<Tag>, pairs: seq<Pair?<K, V>>, src: seq<nat>)
    requires |g.tags| == |g.pairs| && |tags| == |pairs| && i < |g.tags| && g.tags[i] != 0
    requires CopiedFrom(g, i, tags, pairs, src) && |src| < |tags|
    ensures CopiedFrom(g, i + 1, tags[|src| := g.tags[i]], pairs[|src| := g.pairs[i]], src + [i])
  {
    var src' := src + [i];
    assert forall j :: j in src ==> j in src';
    assert src'[|src|] == i;
  }

  lemma CopiedOk<K, V>(g: Group<K, V>, tags: seq<Tag>, pairs: seq<Pair?<K, V>>, src: seq<nat>)
    requires GroupOk(g) && |tags| == |pairs| && |tags| % 32 == 0
    requires CopiedFrom(g, |g.tags|, tags, pairs, src) && |src| == g.pairCount
    ensures GroupOk(Group(tags, pairs, g.pairCount)) && Compact(Group(tags, pairs, g.pairCount))
    ensures Members(Group(tags, pairs, g.pairCount)) == Members(g)
  {
    var r := Group(tags, pairs, g.pairCount);
    UsedPrefix(tags, |src|);
    assert forall k :: Live(r, k) <==> 0 <= k < |src|;
    forall x | x in Members(g) ensures x in Members(r) {
      var i :| Live(g, i) && g.pairs[i] == x;
      var k :| 0 <= k < |src| && src[k] == i;
      assert Live(r, k) && r.pairs[k] == x;
    }
    forall x | x in Members(r) ensures x in Members(g) {
      var k :| Live(r, k) && r.pairs[k] == x;
      assert Live(g, src[k]) && g.pairs[src[k]] == x;
    }
  }

  lemma {:induction false} UsedPrefix(tags: seq<Tag>, n: nat)
    requires n <= |tags|
    requires forall i :: 0 <= i < |tags| ==> (tags[i] != 0 <==> i < n)
    ensures Used(tags) == n
  {
    if n < |tags| {
      UsedPrefix(tags[..|tags| - 1], n);
    } else if n > 0 {
      UsedPrefix(tags[..n - 1], n - 1);
    }
  }

  lemma {:induction false} UsedMonotone(tags: seq<Tag>, i: nat)
    requires i < |tags|
    ensures Used(tags[..i + 1]) == Used(tags[..i]) + (if tags[i] != 0 then 1 else 0)
    ensures Used(tags[..i + 1]) <= Used(tags)
    decreases |tags| - i
  {
    assert tags[..i + 1][..i] == tags[..i];
    if i + 1 < |tags| {
      UsedMonotone(tags, i + 1);
    } else {
      assert tags[..i + 1] == tags;
    }
  }

  /** Growing a group copies the used slots to the front of larger, zeroed buffers. */
  method GroupEnsureTotalCapacity<K(==), V>(g: Group<K, V>, minCapacity: nat) returns (r: Group<K, V>)
    requires GroupOk(g) && g.pairCount <= minCapacity
    ensures GroupOk(r) && Members(r) == Members(g) && r.pairCount == g.pairCount
    ensures |r.tags| >= minCapacity
    ensures minCapacity <= |g.tags| ==> r == g
    ensures minCapacity > |g.tags| ==> Compact(r)
  {
    hide Used, TagOf, CopiedFrom, Members, Compact;
    if minCapacity <= |g.tags| {
      return g;
    }
    var remainder := minCapacity % 32;
    var pairAllocCapacity := minCapacity + (32 - remainder);
    var newTags: seq<Tag> := seq(pairAllocCapacity, _ => 0);
    var newPairs: seq<Pair?<K, V>> := seq(pairAllocCapacity, _ => null);
    var moveIter := 0;
    ghost var src: seq<nat> := [];
    CopyNone(g, newTags, newPairs);
    for i := 0 to |g.tags|
      invariant |newTags| == |newPairs| == pairAllocCapacity
      invariant moveIter == |src| == Used(g.tags[..i]) <= i
      invariant CopiedFrom(g, i, newTags, newPairs, src)
    {
      UsedMonotone(g.tags, i);
      if g.tags[i] == 0 {
        CopySkip(g, i, newTags, newPairs, src);
        continue;
      }
      CopyOne(g, i, newTags, newPairs, src);
      newTags := newTags[moveIter := g.tags[i]];
      newPairs := newPairs[moveIter := g.pairs[i]];
      moveIter := moveIter + 1;
      src := src + [i];
    }
    assert g.tags[..|g.tags|] == g.tags;
    CopiedOk(g, newTags, newPairs, src);
    return Group(newTags, newPairs, g.pairCount);
  }

  /** The slot an insertion fills: the first free one. The search cannot fail, so `unreachable()` is. */
  method FreeSlot<K(==), V>(g: Group<K, V>) returns (slot: int)
    requires GroupOk(g) && g.pairCount < |g.tags|
    ensures 0 <= slot < |g.tags| && g.tags[slot] == 0
    ensures forall j :: 0 <= j < slot ==> g.tags[j] != 0
  {
    FreeSlotExists(g.tags);
    var i := 0;
    while i < |g.tags|
      invariant 0 <= i <= |g.tags| && i % 32 == 0
      invariant forall j :: 0 <= j < i ==> g.tags[j] != 0
    {
      var found, index := IndexOfFirstZero(g.tags, i);
      if found {
        return i + index;
      }
      i := i + 32;
    }
    assert false;
  }

  /** Room is made if needed and the pair goes into the first free slot. */
  method GroupAdd<K(==), V>(g: Group<K, V>, p: Pair<K, V>) returns (r: Group<K, V>)
    requires GroupOk(g) && p !in Members(g)
    ensures GroupOk(r) && Members(r) == Members(g) + {p}
  {
    UsedBound(g.tags);
    var e := GroupEnsureTotalCapacity(g, g.pairCount + 1);
    var slot := FreeSlot(e);
    PutOk(e, slot, p);
    r := Put(e, slot, p);
  }

  /** The rehash's way of adding: straight to slot `pairCount`, which is free because the group is compact. */
  method GroupAppend<K(==), V>(g: Group<K, V>, tag: Tag, p: Pair<K, V>) returns (r: Group<K, V>)
    requires GroupOk(g) && Compact(g) && p !in Members(g) && tag == TagOf(p.hashCode)
    ensures GroupOk(r) && Compact(r) && Members(r) == Members(g) + {p}
  {
    UsedBound(g.tags);
    var e := GroupEnsureTotalCapacity(g, g.pairCount + 1);
    PutOk(e, e.pairCount, p);
    r := Group(e.tags[e.pairCount := tag], e.pairs[e.pairCount := p], e.pairCount + 1);
  }
}
