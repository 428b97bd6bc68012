/** The groups of a map taken together (src/primitives/map/map.c:271-350): an index from keys to pairs,
    and the rehash that doubles the number of groups. */
module HashIndex {
  import opened HashGroup

  /** `groupBitmask.value % groupCount` */
  function SlotOf(h: Hash, groupCount: nat): nat
    requires groupCount > 0
  {
    GroupBits(h) % groupCount
  }

  /** The groups index exactly the pairs of `all`, each in the group its hash selects. */
  ghost predicate Indexes<K, V>(groups: seq<Group<K, V>>, all: set<Pair?<K, V>>) {
    && (forall g :: 0 <= g < |groups| ==> GroupOk(groups[g]))
    && (forall g, p :: 0 <= g < |groups| && p in Members(groups[g]) ==>
          p in all && p != null && SlotOf(p.hashCode, |groups|) == g)
    && (forall p :: p in all ==> p != null && |groups| > 0 && p in Members(groups[SlotOf(p.hashCode, |groups|)]))
  }

  lemma IndexedGroup<K, V>(groups: seq<Group<K, V>>, all: set<Pair?<K, V>>, g: nat)
    requires Indexes(groups, all) && g < |groups|
    ensures GroupOk(groups[g]) && Members(groups[g]) <= all
  {
  }

  /** Filling one group's free slot extends the index by that pair. */
  lemma IndexAdd<K, V>(groups: seq<Group<K, V>>, all: set<Pair?<K, V>>, g: nat, p: Pair<K, V>, r: Group<K, V>)
    requires Indexes(groups, all) && g < |groups| && g == SlotOf(p.hashCode, |groups|)
    requires GroupOk(r) && Members(r) == Members(groups[g]) + {p}
    ensures Indexes(groups[g := r], all + {p})
  {
  }

  lemma IndexRemove<K, V>(groups: seq<Group<K, V>>, all: set<Pair?<K, V>>, g: nat, p: Pair<K, V>, r: Group<K, V>)
    requires Indexes(groups, all) && g < |groups| && p in Members(groups[g])
    requires GroupOk(r) && Members(r) == Members(groups[g]) - {p}
    ensures Indexes(groups[g := r], all - {p})
  {
  }

  /** How far a rehash has come: everything in the old groups below `a`, and in the first `i` slots of group `a`. */
  ghost predicate Moved<K, V>(groups: seq<Group<K, V>>, all: set<Pair?<K, V>>, a: nat, i: nat, done: set<Pair?<K, V>>)
    requires Indexes(groups, all)
  {
    && a <= |groups| && done <= all
    && (forall p :: p in all && SlotOf(p.hashCode, |groups|) < a ==> p in done)
    && (forall p :: p in done ==> SlotOf(p.hashCode, |groups|) <= a)
    && (a < |groups| ==>
        && (forall j :: 0 <= j < i && Live(groups[a], j) ==> groups[a].pairs[j] in done)
        && (forall p :: p in done && SlotOf(p.hashCode, |groups|) == a ==>
              exists j :: 0 <= j < i && Live(groups[a], j) && groups[a].pairs[j] == p))
  }

  lemma MoveOne<K, V>(groups: seq<Group<K, V>>, all: set<Pair?<K, V>>, a: nat, i: nat, done: set<Pair?<K, V>>)
    requires Indexes(groups, all) && a < |groups| && Moved(groups, all, a, i, done)
    ensures !Live(groups[a], i) ==> Moved(groups, all, a, i + 1, done)
    ensures Live(groups[a], i) ==>
      var p := groups[a].pairs[i];
      p in all && p !in done && Moved(groups, all, a, i + 1, done + {p})
  {
    if Live(groups[a], i) {
      var p := groups[a].pairs[i];
      assert p in Members(groups[a]);
    }
  }

  lemma MoveGroup<K, V>(groups: seq<Group<K, V>>, all: set<Pair?<K, V>>, a: nat, i: nat, done: set<Pair?<K, V>>)
    requires Indexes(groups, all) && a < |groups| && Moved(groups, all, a, i, done)
    requires i == |groups[a].tags| || groups[a].pairCount == 0
    ensures Moved(groups, all, a + 1, 0, done)
  {
    UsedBound(groups[a].tags);
    forall p | p in all && SlotOf(p.hashCode, |groups|) == a ensures p in done {
      assert p in Members(groups[a]);
      var j :| Live(groups[a], j) && groups[a].pairs[j] == p;
    }
  }

  ghost predicate AllCompact<K, V>(groups: seq<Group<K, V>>) {
    forall g :: 0 <= g < |groups| ==> Compact(groups[g])
  }

  /** Moves the used slots of one old group, in slot order; holes left by erasures are skipped. */
  method RehashGroup<K(==), V>(oldGroups: seq<Group<K, V>>, a: nat, newGroups: seq<Group<K, V>>,
                               ghost all: set<Pair?<K, V>>, ghost done: set<Pair?<K, V>>)
    returns (r: seq<Group<K, V>>, ghost done': set<Pair?<K, V>>)
    requires Indexes(oldGroups, all) && a < |oldGroups| && Moved(oldGroups, all, a, 0, done)
    requires Indexes(newGroups, done) && AllCompact(newGroups) && |newGroups| > 0
    ensures |r| == |newGroups| && Indexes(r, done') && AllCompact(r)
    ensures Moved(oldGroups, all, a + 1, 0, done')
  {
    var oldGroup := oldGroups[a];
    r, done' := newGroups, done;
    if oldGroup.pairCount == 0 {
      MoveGroup(oldGroups, all, a, 0, done);
      return;
    }
    for i := 0 to |oldGroup.tags|
      invariant |r| == |newGroups| && Indexes(r, done') && AllCompact(r)
      invariant Moved(oldGroups, all, a, i, done')
    {
      MoveOne(oldGroups, all, a, i, done');
      if oldGroup.tags[i] == 0 {
        continue;
      }
      var pair := oldGroup.pairs[i];
      var groupIndex := SlotOf(pair.hashCode, |r|);
      var newGroup := GroupAppend(r[groupIndex], oldGroup.tags[i], pair);
      IndexAdd(r, done', groupIndex, pair, newGroup);
      r := r[groupIndex := newGroup];
      done' := done' + {pair};
    }
    MoveGroup(oldGroups, all, a, |oldGroup.tags|, done');
  }

  function EmptyGroups<K, V>(n: nat): seq<Group<K, V>> {
    seq(n, _ => GroupInit())
  }

  lemma EmptyGroupsIndexNothing<K, V>(n: nat)
    ensures Indexes(EmptyGroups<K, V>(n), {}) && AllCompact(EmptyGroups<K, V>(n))
  {
    GroupInitOk<K, V>();
  }

  /** Doubling the groups re-indexes the same pairs: none is lost, none appears twice. */
  method Rehash<K(==), V>(oldGroups: seq<Group<K, V>>, ghost all: set<Pair?<K, V>>)
    returns (newGroups: seq<Group<K, V>>)
    requires Indexes(oldGroups, all) && |oldGroups| > 0
    ensures |newGroups| == 2 * |oldGroups| && Indexes(newGroups, all)
  {
    newGroups := EmptyGroups(2 * |oldGroups|);
    EmptyGroupsIndexNothing<K, V>(2 * |oldGroups|);
    ghost var done: set<Pair?<K, V>> := {};
    for a := 0 to |oldGroups|
      invariant |newGroups| == 2 * |oldGroups| && Indexes(newGroups, done) && AllCompact(newGroups)
      invariant Moved(oldGroups, all, a, 0, done)
    {
      newGroups, done := RehashGroup(oldGroups, a, newGroups, all, done);
    }
    assert done == all;
  }
}
