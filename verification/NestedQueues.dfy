/** A thread's stack of queue levels (src/sync/sync_queue.c:155-228): `Queues` is the state as a value,
    with the effect of each call on it, and `ThreadLocalQueues` the object the calls update. */
module NestedSpec {
  import opened Locks
  import opened QueueSpec

  /** Levels below `current` are locked; level `current` collects requests for the next lock. Levels
      above may still hold requests that were added and never locked. */
  datatype Queues = Queues(levels: seq<seq<Request>>, current: nat)

  /** `Lock` also stands for a try-lock that succeeds, `TryRefused` for one that does not. */
  datatype Call = Add(r: Request) | Lock | Unlock | TryRefused

  /** `queues_ensure_total_capacity`: 2 levels first, then doubling. */
  function EnsureCapacity(q: Queues): (r: Queues)
    requires q.current <= |q.levels|
    ensures r.current < |r.levels| && q.levels <= r.levels && r.current == q.current
  {
    if q.current + 1 <= |q.levels| then q
    else if q.levels == [] then q.(levels := [[], []])
    else q.(levels := q.levels + seq(|q.levels|, _ => []))
  }

  /** The state after a call; what the call does to the locks is the change of `Held`. */
  function After(q: Queues, c: Call): (r: Queues)
    requires q.current <= |q.levels| && Allowed(q, c)
    ensures r.current <= |r.levels|
  {
    match c
    case Add(r) =>
      var e := EnsureCapacity(q);
      e.(levels := e.levels[e.current := Insert(e.levels[e.current], r)])
    case Lock => q.(current := q.current + 1)
    case Unlock => Queues(q.levels[q.current - 1 := []], q.current - 1)
    case TryRefused => q.(levels := q.levels[q.current := []])
  }

  /** What a call needs to be defined: locking reads queues[current], which is past the array if nothing was
      ever added that deep, and unlocking queues[current - 1]. */
  predicate Allowed(q: Queues, c: Call) {
    match c
    case Add(_) => true
    case Lock => q.current < |q.levels|
    case Unlock => 0 < q.current
    case TryRefused => q.current < |q.levels|
  }

  /** The locks this thread holds. */
  function Held(q: Queues): Holds
    requires q.current <= |q.levels|
  {
    Flatten(q.levels[..q.current])
  }

  /** How far the calls go below the level they start at, and where they end. */
  predicate Runs(q: Queues, calls: seq<Call>, base: nat)
    requires q.current <= |q.levels|
    decreases calls
  {
    calls == [] ||
    (Allowed(q, calls[0]) && (calls[0].Unlock? ==> q.current > base) && Runs(After(q, calls[0]), calls[1..], base))
  }

  function AfterAll(q: Queues, calls: seq<Call>, base: nat): (r: Queues)
    requires q.current <= |q.levels| && Runs(q, calls, base)
    ensures r.current <= |r.levels|
    decreases calls
  {
    if calls == [] then q else AfterAll(After(q, calls[0]), calls[1..], base)
  }

  lemma HeldAfter(q: Queues, c: Call)
    requires q.current <= |q.levels| && Allowed(q, c)
    ensures c.Add? || c.TryRefused? ==> Held(After(q, c)) == Held(q)
    ensures c.Lock? ==> Held(After(q, c)) == Held(q) + multiset(q.levels[q.current])
    ensures c.Unlock? ==> Held(After(q, c)) + multiset(q.levels[q.current - 1]) == Held(q)
  {
    var r := After(q, c);
    match c
    case Add(_) =>
      assert r.levels[..r.current] == q.levels[..q.current];
    case Lock =>
      assert r.levels[..r.current][..q.current] == q.levels[..q.current];
    case Unlock =>
      assert q.levels[..q.current][..r.current] == r.levels[..r.current];
    case TryRefused =>
      assert r.levels[..r.current] == q.levels[..q.current];
  }

  // ---- What is in a level ----

  /** Adding changes the current level alone, which gains the request unless its address is there already; new
      levels are empty. */
  lemma AddExactly(q: Queues, r: Request)
    requires q.current <= |q.levels| && (q.current < |q.levels| ==> Ascending(q.levels[q.current]))
    ensures var a := After(q, Add(r)); var was := if q.current < |q.levels| then q.levels[q.current] else [];
      && a.current == q.current < |a.levels| && |q.levels| <= |a.levels|
      && (forall x :: x in a.levels[q.current] <==> x in was || (x == r && forall y :: y in was ==> y.addr != r.addr))
      && (forall k :: 0 <= k < |a.levels| && k != q.current ==>
            a.levels[k] == if k < |q.levels| then q.levels[k] else [])
  {
    var was := if q.current < |q.levels| then q.levels[q.current] else [];
    forall x ensures x in Insert(was, r) <==> x in was || (x == r && forall y :: y in was ==> y.addr != r.addr) {
      InsertMembers(was, r, x);
    }
    hide Insert;
    assert EnsureCapacity(q).levels[q.current] == was;
  }

  /** How deep a thread is in locks after its calls. */
  function Depth(calls: seq<Call>): int {
    if calls == [] then 0
    else
      var n := |calls| - 1;
      match calls[n]
      case Lock => Depth(calls[..n]) + 1
      case Unlock => Depth(calls[..n]) - 1
      case _ => Depth(calls[..n])
  }

  /** What was asked for at a level since it was last unlocked or refused. */
  function Asked(calls: seq<Call>, level: int): seq<Request> {
    if calls == [] then []
    else
      var n := |calls| - 1;
      var before := Asked(calls[..n], level);
      match calls[n]
      case Add(r) => if Depth(calls[..n]) == level then before + [r] else before
      case Lock => before
      case Unlock => if Depth(calls[..n]) - 1 == level then [] else before
      case TryRefused => if Depth(calls[..n]) == level then [] else before
  }

  lemma {:induction false} RunsAppend(q: Queues, calls: seq<Call>, c: Call, base: nat)
    requires q.current <= |q.levels| && Runs(q, calls + [c], base)
    ensures Runs(q, calls, base)
    ensures var r := AfterAll(q, calls, base);
      Allowed(r, c) && AfterAll(q, calls + [c], base) == After(r, c)
    decreases calls
  {
    var more := calls + [c];
    if calls == [] {
      assert more[1..] == [];
    } else {
      assert more[1..] == calls[1..] + [c];
      RunsAppend(After(q, calls[0]), calls[1..], c, base);
    }
  }

  /** Every level there is holds what was asked for at it, and nothing was asked for at any other. */
  ghost predicate HoldsAsked(q: Queues, calls: seq<Call>) {
    && q.current == Depth(calls)
    && forall k: nat :: if k < |q.levels| then IsLevelOf(q.levels[k], Asked(calls, k)) else Asked(calls, k) == []
  }

  lemma NothingAsked()
    ensures IsLevelOf([], [])
  {
  }

  lemma {:induction false} AddedToLevel(level: seq<Request>, rs: seq<Request>, r: Request)
    requires IsLevelOf(level, rs)
    ensures IsLevelOf(Insert(level, r), rs + [r])
  {
    InsertAscending(level, r);
    AddedExactly(rs, level, r);
  }

  lemma {:induction false} AskedMore(calls: seq<Call>, c: Call, level: int)
    ensures Depth(calls + [c]) == Depth(calls) + (if c.Lock? then 1 else if c.Unlock? then -1 else 0)
    ensures Asked(calls + [c], level) ==
      match c
      case Add(r) => if Depth(calls) == level then Asked(calls, level) + [r] else Asked(calls, level)
      case Lock => Asked(calls, level)
      case Unlock => if Depth(calls) - 1 == level then [] else Asked(calls, level)
      case TryRefused => if Depth(calls) == level then [] else Asked(calls, level)
  {
    assert (calls + [c])[..|calls|] == calls;
  }

  lemma {:induction false} StepAsked(q: Queues, calls: seq<Call>, c: Call)
    requires q.current <= |q.levels| && Allowed(q, c) && HoldsAsked(q, calls)
    ensures HoldsAsked(After(q, c), calls + [c])
  {
    hide IsLevelOf, Insert, Asked, Depth;
    var r, more := After(q, c), calls + [c];
    NothingAsked();
    AskedMore(calls, c, 0);
    forall k: nat ensures if k < |r.levels| then IsLevelOf(r.levels[k], Asked(more, k)) else Asked(more, k) == [] {
      AskedMore(calls, c, k);
      if c.Add? && k == q.current {
        var level := if k < |q.levels| then q.levels[k] else [];
        assert EnsureCapacity(q).levels[k] == level;
        AddedToLevel(level, Asked(calls, k), c.r);
      }
    }
  }

  /** After any calls of a thread, each level holds exactly what was asked for at it since it was last unlocked
      or refused, each address once and in the mode it was first asked for. */
  lemma {:induction false} LevelsAreAsked(calls: seq<Call>)
    requires Runs(Queues([], 0), calls, 0)
    ensures HoldsAsked(AfterAll(Queues([], 0), calls, 0), calls)
    decreases |calls|
  {
    hide IsLevelOf, After, Allowed;
    if calls != [] {
      var n := |calls| - 1;
      assert calls == calls[..n] + [calls[n]];
      RunsAppend(Queues([], 0), calls[..n], calls[n], 0);
      LevelsAreAsked(calls[..n]);
      StepAsked(AfterAll(Queues([], 0), calls[..n], 0), calls[..n], calls[n]);
    }
  }

  /** So a lock takes, beside what is held, exactly what was asked for at its level, and an unlock gives just
      that back. */
  lemma {:induction false} LockTakesAsked(calls: seq<Call>)
    requires Runs(Queues([], 0), calls + [Lock], 0)
    ensures Runs(Queues([], 0), calls, 0)
    ensures var q, r := AfterAll(Queues([], 0), calls, 0), AfterAll(Queues([], 0), calls + [Lock], 0);
      && q.current == Depth(calls) && q.current < |q.levels|
      && IsLevelOf(q.levels[q.current], Asked(calls, Depth(calls)))
      && Held(r) == Held(q) + multiset(q.levels[q.current])
  {
    hide IsLevelOf, After, Asked, Depth;
    RunsAppend(Queues([], 0), calls, Lock, 0);
    LevelsAreAsked(calls);
    HeldAfter(AfterAll(Queues([], 0), calls, 0), Lock);
  }

  // ---- The array of levels ----

  /** How many levels the calls have added something to, counting up to the deepest. */
  function Deepest(q: Queues, calls: seq<Call>, base: nat): nat
    requires q.current <= |q.levels| && Runs(q, calls, base)
    decreases calls
  {
    if calls == [] then 0
    else Max(if calls[0].Add? then q.current + 1 else 0, Deepest(After(q, calls[0]), calls[1..], base))
  }

  function Max(a: nat, b: nat): nat {
    if a < b then b else a
  }

  /** The array for `n` levels: the least power of two that is at least `n` and 2. */
  function Room(n: nat): (r: nat)
    ensures n <= r && (r == 0 <==> n == 0)
  {
    if n == 0 then 0 else if n <= 2 then 2 else 2 * Room((n + 1) / 2)
  }

  lemma {:induction false} RoomStays(n: nat, m: nat)
    requires n <= m <= Room(n)
    ensures Room(m) == Room(n)
  {
    if n > 2 {
      RoomStays((n + 1) / 2, (m + 1) / 2);
    }
  }

  lemma {:induction false} RoomDoubles(n: nat)
    requires n > 0
    ensures Room(Room(n) + 1) == 2 * Room(n)
  {
    if n > 2 {
      RoomDoubles((n + 1) / 2);
    }
  }

  lemma {:induction false} EnsureRoom(q: Queues, n: nat)
    requires q.current <= |q.levels| == Room(n)
    ensures |EnsureCapacity(q).levels| == Room(Max(n, q.current + 1))
  {
    if q.current + 1 > Room(n) {
      if n > 0 {
        RoomDoubles(n);
      }
    } else if n < q.current + 1 {
      RoomStays(n, q.current + 1);
    }
  }

  lemma {:induction false} ArrayLength(q: Queues, calls: seq<Call>, base: nat, n: nat)
    requires q.current <= |q.levels| == Room(n) && Runs(q, calls, base)
    ensures |AfterAll(q, calls, base).levels| == Room(Max(n, Deepest(q, calls, base)))
    decreases calls
  {
    hide Room, EnsureCapacity;
    if calls != [] {
      var added := if calls[0].Add? then q.current + 1 else 0;
      if calls[0].Add? {
        EnsureRoom(q, n);
      }
      ArrayLength(After(q, calls[0]), calls[1..], base, Max(n, added));
    }
  }

  /** Whether a lock stays inside the array depends on the deepest level anything was ever added to: it does
      exactly at the levels of the array that was allocated for that one. A thread that never added anything
      has none. */
  lemma {:induction false} LockInsideExactly(calls: seq<Call>)
    requires Runs(Queues([], 0), calls, 0)
    ensures var q := AfterAll(Queues([], 0), calls, 0);
      Allowed(q, Lock) <==> q.current < Room(Deepest(Queues([], 0), calls, 0))
  {
    hide Deepest, AfterAll, Runs;
    ArrayLength(Queues([], 0), calls, 0, 0);
  }

  /** One request, two nested locks without any, and the third is past the array. */
  lemma {:induction false} ThirdLock(r: Request)
    ensures var calls := [Add(r), Lock, Lock];
      Runs(Queues([], 0), calls, 0) && !Allowed(AfterAll(Queues([], 0), calls, 0), Lock)
  {
    var calls := [Add(r), Lock, Lock];
    var one := After(Queues([], 0), Add(r));
    var two := After(one, Lock);
    var three := After(two, Lock);
    assert calls[1..] == [Lock, Lock] && calls[1..][1..] == [Lock] && calls[1..][1..][1..] == [];
    assert Runs(two, [Lock], 0) && AfterAll(two, [Lock], 0) == three;
    assert Runs(one, [Lock, Lock], 0) && AfterAll(one, [Lock, Lock], 0) == three;
  }

  /** Calls that never unlock below `base` leave the levels below `base` as they were. */
  lemma {:induction false} BelowUntouched(q: Queues, calls: seq<Call>, base: nat)
    requires q.current <= |q.levels| && base <= q.current && Runs(q, calls, base)
    ensures var r := AfterAll(q, calls, base);
            base <= r.current && r.levels[..base] == q.levels[..base]
    decreases calls
  {
    if calls != [] {
      var m := After(q, calls[0]);
      BelowUntouched(m, calls[1..], base);
      assert m.levels[..base] == q.levels[..base];
    }
  }

  /** A nest of calls that ends at the level it started at restores the locks held, whatever was
      added, locked and unlocked inside. */
  lemma BalancedNestRestores(q: Queues, calls: seq<Call>)
    requires q.current <= |q.levels| && Runs(q, calls, q.current)
    requires AfterAll(q, calls, q.current).current == q.current
    ensures Held(AfterAll(q, calls, q.current)) == Held(q)
    ensures AfterAll(q, calls, q.current).levels[..q.current] == q.levels[..q.current]
  {
    BelowUntouched(q, calls, q.current);
  }
}

module NestedQueues {
  import opened Options
  import opened Locks
  import opened QueueSpec
  import opened NestedSpec
  import opened ThreadQueues

  ghost predicate Stores(q: SyncQueue, level: seq<Request>)
    reads q
  {
    q.Valid() && q.Contents() == level
  }

  ghost predicate Apart(queues: seq<SyncQueue>)
  {
    forall i, j :: 0 <= i < |queues| && 0 <= j < |queues| && i != j ==> queues[i] != queues[j]
  }

  class ThreadLocalQueues {
    var queues: seq<SyncQueue>
    var current: nat
    ghost var levels: seq<seq<Request>>  // what each queue holds

    ghost predicate Valid()
      reads this, queues
    {
      && current <= |queues| == |levels|
      && (forall i :: 0 <= i < |queues| ==> Stores(queues[i], levels[i]))
      && Apart(queues)
    }

    ghost function State(): Queues
      reads this
    {
      Queues(levels, current)
    }

    constructor ()
      ensures Valid() && State() == Queues([], 0)
    {
      queues := [];
      levels := [];
      current := 0;
    }

    method EnsureTotalCapacity()
      requires Valid()
      modifies this
      ensures Valid() && State() == EnsureCapacity(old(State()))
      ensures forall i :: 0 <= i < |queues| ==>
        if i < |old(queues)| then queues[i] == old(queues[i]) else fresh(queues[i])
    {
      if current + 1 <= |queues| {
        return;
      }
      var n := if |queues| == 0 then 2 else |queues|;
      var i := 0;
      while i < n
        invariant 0 <= i <= n && Valid() && current == old(current)
        invariant |queues| == |old(queues)| + i
        invariant levels == old(levels) + seq(i, _ => [])
        invariant forall j :: 0 <= j < |queues| ==>
          if j < |old(queues)| then queues[j] == old(queues[j]) else fresh(queues[j])
      {
        var q := new SyncQueue();
        queues := queues + [q];
        levels := levels + [[]];
        i := i + 1;
      }
      assert old(levels) == [] ==> levels == [[], []];
    }

    /** Adds a request to the level that the next lock will take. */
    method Add(r: Request) returns (ok: bool)
      requires Valid()
      modifies this, queues
      ensures Valid()
      ensures ok ==> State() == After(old(State()), Call.Add(r))
      ensures !ok ==> State() == EnsureCapacity(old(State()))
      ensures var e := EnsureCapacity(old(State()));
              ok <==> |e.levels[e.current]| < 8 || r.addr in AsMap(e.levels[e.current])
    {
      EnsureTotalCapacity();
      var q := queues[current];
      ok := q.AddSyncObject(r);
      levels := levels[current := q.Contents()];
    }

    /** `inside` is false where the code would read past its array. */
    method Lock(locks: LockTable) returns (inside: bool)
      requires Valid()
      requires Allowed(State(), Call.Lock) ==> forall r :: r in levels[current] ==> CanLock(locks.held, r)
      modifies this`current, locks
      ensures Valid() && inside == Allowed(old(State()), Call.Lock)
      ensures inside ==> State() == After(old(State()), Call.Lock)
                         && locks.held == old(locks.held) + multiset(old(levels[current]))
      ensures !inside ==> State() == old(State()) && locks.held == old(locks.held)
    {
      inside := current < |queues|;
      if inside {
        queues[current].Acquire(locks);
        current := current + 1;
      }
    }

    /** `None` where the code would read past its array. */
    method TryLock(locks: LockTable) returns (taken: Option<bool>)
      requires Valid()
      modifies this, queues, locks
      ensures Valid() && taken.Some? == Allowed(old(State()), Call.Lock)
      ensures taken.None? ==> State() == old(State()) && locks.held == old(locks.held)
      ensures taken.Some? ==> (taken.value <==> forall r :: r in old(levels[current]) ==> CanLock(old(locks.held), r))
      ensures taken == Some(true) ==> State() == After(old(State()), Call.Lock)
                                      && locks.held == old(locks.held) + multiset(old(levels[current]))
      ensures taken == Some(false) ==> State() == After(old(State()), Call.TryRefused)
                                       && locks.held == old(locks.held)
    {
      if current >= |queues| {
        return None;
      }
      var q := queues[current];
      var ok := q.TryAcquire(locks);
      if ok {
        current := current + 1;
      } else {
        levels := levels[current := []];
      }
      taken := Some(ok);
    }

    method ReleaseLevel(k: nat, locks: LockTable)
      requires Valid() && k < |queues|
      requires multiset(levels[k]) <= locks.held
      modifies this`levels, queues[k], locks
      ensures Valid() && levels == old(levels)[k := []]
      ensures locks.held == old(locks.held) - multiset(old(levels[k]))
    {
      var q := queues[k];
      assert Stores(q, levels[k]);
      q.Release(locks);
      levels := levels[k := []];
      assert Stores(q, levels[k]);
      forall i | 0 <= i < |queues| && i != k ensures Stores(queues[i], levels[i]) {
        assert old(Stores(queues[i], levels[i]));
      }
    }

    method Unlock(locks: LockTable)
      requires Valid() && Allowed(State(), Call.Unlock)
      requires Held(State()) <= locks.held
      modifies this, queues, locks
      ensures Valid() && State() == After(old(State()), Call.Unlock)
      ensures locks.held == old(locks.held) - multiset(old(levels[current - 1]))
      ensures Held(State()) <= locks.held
    {
      HeldAfter(State(), Call.Unlock);
      var releaseIndex := current - 1;
      ReleaseLevel(releaseIndex, locks);
      current := releaseIndex;
    }
  }
}
