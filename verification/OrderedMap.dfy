/** What a map is to its users: entries with distinct keys in insertion order. */
module OrderedMap {
  import opened Options

  datatype Entry<+K, +V> = Entry(key: K, value: V)

  ghost predicate DistinctKeys<K, V>(es: seq<Entry<K, V>>) {
    forall i, j :: 0 <= i < j < |es| ==> es[i].key != es[j].key
  }

  function AsMap<K, V>(es: seq<Entry<K, V>>): map<K, V> {
    if es == [] then map[] else AsMap(es[1..])[es[0].key := es[0].value]
  }

  function Lookup<K(==), V>(es: seq<Entry<K, V>>, key: K): Option<V> {
    if es == [] then None
    else if es[0].key == key then Some(es[0].value)
    else Lookup(es[1..], key)
  }

  function Insert<K(==), V>(es: seq<Entry<K, V>>, key: K, value: V): seq<Entry<K, V>> {
    if es == [] then [Entry(key, value)]
    else if es[0].key == key then [Entry(key, value)] + es[1..]
    else [es[0]] + Insert(es[1..], key, value)
  }

  function Erase<K(==), V>(es: seq<Entry<K, V>>, key: K): seq<Entry<K, V>> {
    if es == [] then []
    else if es[0].key == key then es[1..]
    else [es[0]] + Erase(es[1..], key)
  }

  ghost predicate HasKey<K, V>(es: seq<Entry<K, V>>, key: K) {
    exists i :: 0 <= i < |es| && es[i].key == key
  }

  lemma {:induction false} AsMapKeys<K, V>(es: seq<Entry<K, V>>, key: K)
    ensures key in AsMap(es) <==> HasKey(es, key)
  {
    if es != [] {
      AsMapKeys(es[1..], key);
      if HasKey(es[1..], key) {
        var i :| 0 <= i < |es[1..]| && es[1..][i].key == key;
        assert es[i + 1].key == key;
      }
      if HasKey(es, key) && es[0].key != key {
        var i :| 0 <= i < |es| && es[i].key == key;
        assert es[1..][i - 1].key == key;
      }
    }
  }

  lemma {:induction false} LookupIsMap<K, V>(es: seq<Entry<K, V>>, key: K)
    ensures Lookup(es, key) == if key in AsMap(es) then Some(AsMap(es)[key]) else None
  {
    if es != [] {
      LookupIsMap(es[1..], key);
    }
  }

  /** Where `Insert` and `Erase` act, once the position of the key is known. */
  lemma {:induction false} ActAt<K, V>(es: seq<Entry<K, V>>, k: nat, value: V)
    requires k < |es| && forall i :: 0 <= i < k ==> es[i].key != es[k].key
    ensures Insert(es, es[k].key, value) == es[k := Entry(es[k].key, value)]
    ensures Erase(es, es[k].key) == es[..k] + es[k + 1..]
  {
    if k > 0 {
      var t := es[1..];
      ActAt(t, k - 1, value);
      assert es == [es[0]] + t;
      assert es[..k] + es[k + 1..] == [es[0]] + (t[..k - 1] + t[k..]);
      assert es[k := Entry(es[k].key, value)] == [es[0]] + t[k - 1 := Entry(es[k].key, value)];
    }
  }

  lemma {:induction false} ActAbsent<K, V>(es: seq<Entry<K, V>>, key: K, value: V)
    requires !HasKey(es, key)
    ensures Insert(es, key, value) == es + [Entry(key, value)]
  {
    if es != [] {
      assert es[0].key != key;
      assert forall i :: 0 <= i < |es[1..]| ==> es[1..][i] == es[i + 1];
      ActAbsent(es[1..], key, value);
      assert es == [es[0]] + es[1..];
    }
  }

  lemma {:induction false} EraseAbsent<K, V>(es: seq<Entry<K, V>>, key: K)
    requires !HasKey(es, key)
    ensures Erase(es, key) == es
  {
    if es != [] {
      assert es[0].key != key;
      assert forall i :: 0 <= i < |es[1..]| ==> es[1..][i] == es[i + 1];
      EraseAbsent(es[1..], key);
    }
  }

  lemma {:induction false} InsertLength<K, V>(es: seq<Entry<K, V>>, key: K, value: V)
    ensures |es| <= |Insert(es, key, value)| <= |es| + 1
  {
    if es != [] {
      InsertLength(es[1..], key, value);
    }
  }

  lemma {:induction false} LookupPresent<K, V>(es: seq<Entry<K, V>>, k: nat)
    requires k < |es| && DistinctKeys(es)
    ensures Lookup(es, es[k].key) == Some(es[k].value)
  {
    if k > 0 {
      LookupPresent(es[1..], k - 1);
    }
  }

  lemma LookupAbsent<K, V>(es: seq<Entry<K, V>>, key: K)
    requires !HasKey(es, key)
    ensures Lookup(es, key) == None
  {
    LookupIsMap(es, key);
    AsMapKeys(es, key);
  }

  lemma {:induction false} EraseLength<K, V>(es: seq<Entry<K, V>>, key: K)
    ensures |Erase(es, key)| == if HasKey(es, key) then |es| - 1 else |es|
  {
    if es != [] {
      EraseLength(es[1..], key);
      if HasKey(es, key) && es[0].key != key {
        var i :| 0 <= i < |es| && es[i].key == key;
        assert es[1..][i - 1].key == key;
      }
      if HasKey(es[1..], key) {
        var i :| 0 <= i < |es[1..]| && es[1..][i].key == key;
        assert es[i + 1].key == key;
      }
    }
  }

  // ---- Whole runs ----

  datatype Call<+K, +V> = InsertCall(key: K, value: V) | EraseCall(key: K)

  /** The entries and the `len` field after a run of calls. */
  datatype State<+K, +V> = State(entries: seq<Entry<K, V>>, len: int)

  function After<K(==), V>(s: State<K, V>, c: Call<K, V>): State<K, V> {
    match c
    case InsertCall(k, v) => State(Insert(s.entries, k, v), s.len + 1)
    case EraseCall(k) => State(Erase(s.entries, k), s.len - (|s.entries| - |Erase(s.entries, k)|))
  }

  function Run<K(==), V>(log: seq<Call<K, V>>): State<K, V> {
    if log == [] then State([], 0) else After(Run(log[..|log| - 1]), log[|log| - 1])
  }

  /** Every insert is of a key that is absent at the time. */
  ghost predicate FreshKeys<K, V>(log: seq<Call<K, V>>) {
    log == [] ||
    (FreshKeys(log[..|log| - 1]) &&
     (log[|log| - 1].InsertCall? ==> !HasKey(Run(log[..|log| - 1]).entries, log[|log| - 1].key)))
  }

  /** A plain map with the same calls. */
  function MapRun<K, V>(log: seq<Call<K, V>>): map<K, V> {
    if log == [] then map[]
    else
      var m := MapRun(log[..|log| - 1]);
      match log[|log| - 1]
      case InsertCall(k, v) => m[k := v]
      case EraseCall(k) => m - {k}
  }

  /** The inserted entries whose key is not erased later on, in the order they were inserted. */
  ghost function Survivors<K, V>(log: seq<Call<K, V>>): seq<Entry<K, V>> {
    if log == [] then []
    else
      (if log[0].InsertCall? && EraseCall(log[0].key) !in log[1..] then [Entry(log[0].key, log[0].value)] else [])
      + Survivors(log[1..])
  }

  ghost function Without<K, V>(es: seq<Entry<K, V>>, key: K): seq<Entry<K, V>> {
    if es == [] then []
    else (if es[0].key == key then [] else [es[0]]) + Without(es[1..], key)
  }

  lemma {:induction false} SurvivorsInsert<K, V>(log: seq<Call<K, V>>, k: K, v: V)
    ensures Survivors(log + [InsertCall(k, v)]) == Survivors(log) + [Entry(k, v)]
  {
    var all := log + [InsertCall(k, v)];
    if log == [] {
      assert all[1..] == [];
    } else {
      SurvivorsInsert(log[1..], k, v);
      assert all[1..] == log[1..] + [InsertCall(k, v)];
    }
  }

  lemma WithoutHead<K, V>(e: Entry<K, V>, es: seq<Entry<K, V>>, key: K)
    ensures Without([e] + es, key) == (if e.key == key then [] else [e]) + Without(es, key)
  {
    assert ([e] + es)[1..] == es;
  }

  lemma {:induction false} SurvivorsErase<K, V>(log: seq<Call<K, V>>, k: K)
    ensures Survivors(log + [EraseCall(k)]) == Without(Survivors(log), k)
  {
    var all := log + [EraseCall(k)];
    if log == [] {
      assert all[1..] == [];
    } else {
      SurvivorsErase(log[1..], k);
      assert all[1..] == log[1..] + [EraseCall(k)];
      assert forall c :: c in log[1..] ==> c in all[1..];
      assert all[1..][|log| - 1] == EraseCall(k);
      var kept := Survivors(log[1..]);
      if log[0].InsertCall? && EraseCall(log[0].key) !in log[1..] {
        assert EraseCall(log[0].key) in all[1..] <==> log[0].key == k;
        WithoutHead(Entry(log[0].key, log[0].value), kept, k);
        assert all[0] == log[0];
      } else {
        assert [] + kept == kept && [] + Without(kept, k) == Without(kept, k);
        assert all[0] == log[0];
      }
    }
  }

  lemma {:induction false} EraseIsWithout<K, V>(es: seq<Entry<K, V>>, key: K)
    requires DistinctKeys(es)
    ensures Erase(es, key) == Without(es, key)
  {
    if es != [] {
      EraseIsWithout(es[1..], key);
      if es[0].key == key {
        forall i | 0 <= i < |es[1..]| ensures es[1..][i].key != key {
          assert es[1..][i] == es[i + 1];
        }
        EraseAbsent(es[1..], key);
      }
    }
  }

  lemma {:induction false} MapInsert<K, V>(es: seq<Entry<K, V>>, key: K, value: V)
    requires DistinctKeys(es)
    ensures AsMap(Insert(es, key, value)) == AsMap(es)[key := value]
    ensures DistinctKeys(Insert(es, key, value))
  {
    if es != [] {
      if es[0].key == key {
        assert ([Entry(key, value)] + es[1..])[1..] == es[1..];
      } else {
        var r := Insert(es[1..], key, value);
        MapInsert(es[1..], key, value);
        assert ([es[0]] + r)[1..] == r;
        AsMapKeys(es[1..], es[0].key);
        AsMapKeys(r, es[0].key);
        assert !HasKey(es[1..], es[0].key) by {
          assert forall i :: 0 <= i < |es[1..]| ==> es[1..][i] == es[i + 1];
        }
      }
    }
  }

  lemma {:induction false} MapErase<K, V>(es: seq<Entry<K, V>>, key: K)
    requires DistinctKeys(es)
    ensures AsMap(Erase(es, key)) == AsMap(es) - {key}
    ensures DistinctKeys(Erase(es, key))
  {
    if es != [] {
      assert !HasKey(es[1..], es[0].key) by {
        assert forall i :: 0 <= i < |es[1..]| ==> es[1..][i] == es[i + 1];
      }
      AsMapKeys(es[1..], es[0].key);
      if es[0].key != key {
        var r := Erase(es[1..], key);
        MapErase(es[1..], key);
        assert ([es[0]] + r)[1..] == r;
        AsMapKeys(r, es[0].key);
      }
    }
  }

  /** After any run of calls whatever: the keys are distinct and lookups agree with a plain map. */
  lemma {:induction false} LookupRefinement<K, V>(log: seq<Call<K, V>>, key: K)
    ensures var s := Run(log);
            && DistinctKeys(s.entries) && AsMap(s.entries) == MapRun(log)
            && Lookup(s.entries, key) == if key in MapRun(log) then Some(MapRun(log)[key]) else None
  {
    if log != [] {
      var n := |log| - 1;
      LookupRefinement(log[..n], key);
      var es := Run(log[..n]).entries;
      match log[n] {
        case InsertCall(k, v) => MapInsert(es, k, v);
        case EraseCall(k) => MapErase(es, k);
      }
    }
    LookupIsMap(Run(log).entries, key);
  }

  /** When every insert is of an absent key, iteration order is the surviving insertions in the order
      they were made. */
  lemma {:induction false} InsertionOrder<K, V>(log: seq<Call<K, V>>)
    requires FreshKeys(log)
    ensures Run(log).entries == Survivors(log)
  {
    if log != [] {
      var n := |log| - 1;
      InsertionOrder(log[..n]);
      var es := Run(log[..n]).entries;
      assert log == log[..n] + [log[n]];
      match log[n] {
        case InsertCall(k, v) =>
          ActAbsent(es, k, v);
          SurvivorsInsert(log[..n], k, v);
        case EraseCall(k) =>
          LookupRefinement(log[..n], k);
          EraseIsWithout(es, k);
          SurvivorsErase(log[..n], k);
      }
    }
  }

  /** How many inserts found their key present. */
  ghost function Reinsertions<K, V>(log: seq<Call<K, V>>): nat {
    if log == [] then 0
    else
      var before, c := log[..|log| - 1], log[|log| - 1];
      Reinsertions(before) + (if c.InsertCall? && c.key in MapRun(before) then 1 else 0)
  }

  /** `len` counts every insert of a present key once more; so it is the number of entries exactly when there
      was no such insert. */
  lemma {:induction false} LenCountsEntries<K, V>(log: seq<Call<K, V>>)
    ensures Run(log).len == |Run(log).entries| + Reinsertions(log)
    ensures Run(log).len == |Run(log).entries| <==> FreshKeys(log)
  {
    if log != [] {
      var n := |log| - 1;
      LenCountsEntries(log[..n]);
      var es := Run(log[..n]).entries;
      match log[n] {
        case InsertCall(k, v) =>
          LookupRefinement(log[..n], k);
          AsMapKeys(es, k);
          if HasKey(es, k) {
            HasKeyFirst(es, k, v);
          } else {
            ActAbsent(es, k, v);
          }
        case EraseCall(k) =>
      }
    }
  }

  lemma {:induction false} HasKeyFirst<K, V>(es: seq<Entry<K, V>>, key: K, value: V)
    requires HasKey(es, key)
    ensures |Insert(es, key, value)| == |es|
  {
    if es[0].key != key {
      var i :| 0 <= i < |es| && es[i].key == key;
      assert es[1..][i - 1].key == key;
      HasKeyFirst(es[1..], key, value);
    }
  }
}
