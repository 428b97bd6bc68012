/** The per-thread queues of src/sync/sync_queue.c as objects updated in place. */
module ThreadQueues {
  import opened Locks
  import opened QueueSpec
  import opened Words
  import opened Bits

  /** A queued object: the address in the low 48 bits, the mode above them. The address and the
      shifted mode share no bit, so C's `|` is the sum; `TagBits` shows the three expressions agree. */
  function Pack(r: Request): Word {
    r.addr + (if r.mode == Shared then ADDRESS_LIMIT else 0)
  }

  function Unpack(w: Word): Request {
    Request(w % ADDRESS_LIMIT, if w / ADDRESS_LIMIT == 0 then Exclusive else Shared)
  }

  lemma UnpackPack(r: Request)
    ensures Unpack(Pack(r)) == r
  {
  }

  /** `Exclusive` is 0 and `Shared` is 1. */
  function ModeTag(m: Mode): nat {
    if m == Shared then 1 else 0
  }

  /** The C expressions for packing and unpacking: a shift and `|`, and the mask OBJECT_PTR_BITMASK and a shift. */
  lemma TagBits(r: Request, w: Word)
    ensures Or(r.addr, ShiftLeft(ModeTag(r.mode), 48)) == Pack(r)
    ensures And(w, 0xffff_ffff_ffff) == Unpack(w).addr
    ensures Unpack(w).mode == Exclusive <==> ShiftRight(w, 48) == 0
  {
    hide And, Or, Power;
    Power48();
    OrDisjoint(r.addr, ModeTag(r.mode), 48);
    MaskLow(w, 48);
  }

  function Decode(ws: seq<Word>): (q: seq<Request>)
    ensures |q| == |ws|
    ensures forall i :: 0 <= i < |ws| ==> q[i] == Unpack(ws[i])
  {
    seq(|ws|, i requires 0 <= i < |ws| => Unpack(ws[i]))
  }

  lemma PrefixStep(q: seq<Request>, i: nat)
    requires i < |q|
    ensures multiset(q[..i + 1]) == multiset(q[..i]) + multiset{q[i]}
  {
    assert q[..i + 1] == q[..i] + [q[i]];
  }

  lemma PrefixWithin(q: seq<Request>, i: nat)
    requires i < |q|
    ensures multiset(q[..i]) + multiset{q[i]} <= multiset(q)
  {
    assert q == q[..i] + [q[i]] + q[i + 1..];
  }

  /** Releasing the next of a held queue. */
  lemma ReleaseStep(held: Holds, q: seq<Request>, i: nat)
    requires i < |q| && multiset(q) <= held
    ensures q[i] in held - multiset(q[..i])
    ensures held - multiset(q[..i]) - multiset{q[i]} == held - multiset(q[..i + 1])
  {
    PrefixStep(q, i);
    PrefixWithin(q, i);
    assert (multiset(q[..i]) + multiset{q[i]})[q[i]] <= multiset(q)[q[i]];
  }

  /** In address order, whether the next lock is free does not depend on the ones just taken. */
  lemma NextUnaffected(before: Holds, q: seq<Request>, i: nat)
    requires Ascending(q) && i < |q|
    ensures CanLock(before + multiset(q[..i]), q[i]) <==> CanLock(before, q[i])
  {
    forall r | r in multiset(q[..i]) ensures r.addr != q[i].addr {
      assert r in q[..i];
    }
  }

  method LockAll(objects: seq<Word>, len: nat, locks: LockTable)
    requires len <= |objects| && Ascending(Decode(objects[..len]))
    requires forall r :: r in Decode(objects[..len]) ==> CanLock(locks.held, r)
    modifies locks
    ensures locks.held == old(locks.held) + multiset(Decode(objects[..len]))
  {
    ghost var q := Decode(objects[..len]);
    for i := 0 to len
      invariant locks.held == old(locks.held) + multiset(q[..i])
    {
      assert q[i] in q;
      NextUnaffected(old(locks.held), q, i);
      PrefixStep(q, i);
      locks.Lock(Unpack(objects[i]));
    }
    assert q[..len] == q;
  }

  /** Takes locks in order until one is refused; `i` says how many were taken. */
  method TryLockAll(objects: seq<Word>, len: nat, locks: LockTable) returns (i: nat)
    requires len <= |objects| && Ascending(Decode(objects[..len]))
    modifies locks
    ensures i <= len && locks.held == old(locks.held) + multiset(Decode(objects[..len])[..i])
    ensures forall j :: 0 <= j < i ==> CanLock(old(locks.held), Decode(objects[..len])[j])
    ensures i < len ==> !CanLock(old(locks.held), Decode(objects[..len])[i])
  {
    ghost var q := Decode(objects[..len]);
    i := 0;
    while i < len
      invariant 0 <= i <= len
      invariant locks.held == old(locks.held) + multiset(q[..i])
      invariant forall j :: 0 <= j < i ==> CanLock(old(locks.held), q[j])
    {
      NextUnaffected(old(locks.held), q, i);
      PrefixStep(q, i);
      var took := locks.TryLock(Unpack(objects[i]));
      if !took {
        return;
      }
      i := i + 1;
    }
  }

  /** Gives back the first `n` locks, last first. */
  method UnlockBack(objects: seq<Word>, n: nat, locks: LockTable, ghost before: Holds)
    requires n <= |objects|
    requires locks.held == before + multiset(Decode(objects[..n]))
    modifies locks
    ensures locks.held == before
  {
    ghost var q := Decode(objects[..n]);
    assert q[..n] == q;
    var i := n;
    while i > 0
      invariant 0 <= i <= n
      invariant locks.held == before + multiset(q[..i])
    {
      i := i - 1;
      PrefixStep(q, i);
      locks.Unlock(Unpack(objects[i]));
    }
  }

  method UnlockAll(objects: seq<Word>, len: nat, locks: LockTable)
    requires len <= |objects|
    requires multiset(Decode(objects[..len])) <= locks.held
    modifies locks
    ensures locks.held == old(locks.held) - multiset(Decode(objects[..len]))
  {
    ghost var q := Decode(objects[..len]);
    for i := 0 to len
      invariant locks.held == old(locks.held) - multiset(q[..i])
    {
      ReleaseStep(old(locks.held), q, i);
      locks.Unlock(Unpack(objects[i]));
    }
    assert q[..len] == q;
  }

  ghost predicate StopsAt(q: seq<Request>, a: Address, i: nat) {
    && i <= |q|
    && (forall j :: 0 <= j < i ==> q[j].addr < a)
    && (i < |q| ==> q[i].addr >= a)
  }

  /** Where the scan stops decides everything `add_sync_object` does. */
  lemma StopDecides(q: seq<Request>, r: Request, i: nat)
    requires Ascending(q) && StopsAt(q, r.addr, i)
    ensures r.addr in AsMap(q) <==> i < |q| && q[i].addr == r.addr
    ensures Insert(q, r) == if r.addr in AsMap(q) then q else q[..i] + [r] + q[i..]
    ensures Ascending(Insert(q, r))
  {
    AsMapMember(q, r.addr);
    InsertAt(q, r, i);
    InsertAscending(q, r);
    if i == |q| {
      assert q[..i] + [r] + q[i..] == q + [r];
    }
  }

  /** One level. `objects` is the allocated buffer, of which the first `len` entries are in use. */
  class SyncQueue {
    var objects: seq<Word>
    var len: nat

    ghost predicate Valid()
      reads this
    {
      && len <= |objects|
      && (|objects| == 0 || |objects| == 4 || |objects| == 8)
      && Ascending(Contents())
    }

    ghost function Contents(): seq<Request>
      reads this
      requires len <= |objects|
    {
      Decode(objects[..len])
    }

    constructor ()
      ensures Valid() && Contents() == []
    {
      objects := [];
      len := 0;
    }

    /** The buffer grows from 0 to 4 to 8 entries and then stays at 8, however often it is reallocated. */
    method Grow()
      requires Valid() && len + 1 > |objects|
      modifies this`objects
      ensures Valid() && Contents() == old(Contents())
      ensures |objects| == if old(|objects|) == 0 then 4 else 8
    {
      var newObjectCapacity := if |objects| != 0 then 8 else 4;
      var newObjects: seq<Word> := objects[..len] + seq(newObjectCapacity - len, _ => 0);
      assert newObjects[..len] == objects[..len];
      objects := newObjects;
    }

    /** The first entry whose address is not below `a`. */
    method Scan(a: Address) returns (i: nat)
      requires Valid()
      ensures StopsAt(Contents(), a, i)
    {
      i := 0;
      while i < len && Unpack(objects[i]).addr < a
        invariant 0 <= i <= len
        invariant forall j :: 0 <= j < i ==> Unpack(objects[j]).addr < a
      {
        i := i + 1;
      }
    }

    /** Move the entries from `i` on one place up, last first, and store `w` in the gap. */
    method ShiftAndStore(i: nat, w: Word)
      requires i <= len < |objects|
      modifies this
      ensures len == old(len) + 1 && |objects| == old(|objects|)
      ensures objects[..len] == old(objects[..i]) + [w] + old(objects[i..len])
    {
      var moveIter := len;
      while moveIter > i
        invariant i <= moveIter <= len == old(len) && |objects| == old(|objects|)
        invariant forall j :: 0 <= j <= moveIter && j < len ==> objects[j] == old(objects[j])
        invariant forall j :: moveIter < j <= len ==> objects[j] == old(objects[j - 1])
      {
        moveIter := moveIter - 1;
        objects := objects[moveIter + 1 := objects[moveIter]];
      }
      objects := objects[i := w];
      len := len + 1;
    }

    /** The slow path of `add_sync_object`: shift the tail and put the new entry in the gap. */
    method Store(i: nat, r: Request)
      requires i <= len < |objects|
      modifies this
      ensures len == old(len) + 1 <= |objects| == old(|objects|)
      ensures Contents() == old(Contents())[..i] + [r] + old(Contents())[i..]
    {
      ghost var ws, q := objects[..len], Contents();
      UnpackPack(r);
      ShiftAndStore(i, Pack(r));
      assert objects[..len] == ws[..i] + [Pack(r)] + ws[i..];
      assert Decode(ws[..i] + [Pack(r)] + ws[i..]) == q[..i] + [r] + q[i..];
    }

    /** What is done once the scan has stopped at `i`. */
    method AddAt(i: nat, r: Request) returns (ok: bool)
      requires Valid() && i <= len && StopsAt(Contents(), r.addr, i)
      modifies this
      ensures Valid()
      ensures ok <==> old(len < |objects|) || r.addr in AsMap(old(Contents()))
      ensures Contents() == if ok then Insert(old(Contents()), r) else old(Contents())
    {
      StopDecides(Contents(), r, i);
      if i < len && Unpack(objects[i]).addr == r.addr {
        return true;
      }
      if len == |objects| {
        return false;
      }
      Store(i, r);
      return true;
    }

    /** `ok` is false exactly where the C text would store a ninth entry past its 8-entry buffer. */
    method AddSyncObject(r: Request) returns (ok: bool)
      requires Valid()
      modifies this
      ensures Valid()
      ensures ok <==> old(len) < 8 || r.addr in AsMap(old(Contents()))
      ensures Contents() == if ok then Insert(old(Contents()), r) else old(Contents())
    {
      if len + 1 > |objects| {
        Grow();
      }
      var i := Scan(r.addr);
      ok := AddAt(i, r);
    }

    /** Blocking calls in address order; each returns because its lock is free for the mode asked. */
    method Acquire(locks: LockTable)
      requires Valid()
      requires forall r :: r in Contents() ==> CanLock(locks.held, r)
      modifies locks
      ensures locks.held == old(locks.held) + multiset(Contents())
    {
      LockAll(objects, len, locks);
    }

    /** All or nothing: every queued lock is taken, or none is and the queue is emptied. */
    method TryAcquire(locks: LockTable) returns (ok: bool)
      requires Valid()
      modifies this`len, locks
      ensures Valid() && objects == old(objects)
      ensures ok <==> forall r :: r in old(Contents()) ==> CanLock(old(locks.held), r)
      ensures ok ==> locks.held == old(locks.held) + multiset(old(Contents())) && Contents() == old(Contents())
      ensures !ok ==> locks.held == old(locks.held) && Contents() == []
    {
      var i := TryLockAll(objects, len, locks);
      ghost var q := Contents();
      if i == len {
        assert q[..i] == q;
        return true;
      }
      assert q[i] in q;
      assert Decode(objects[..i]) == q[..i];
      UnlockBack(objects, i, locks, old(locks.held));
      len := 0;
      return false;
    }

    /** Give back every lock of this level in the mode it was taken, and empty the level. */
    method Release(locks: LockTable)
      requires Valid()
      requires multiset(Contents()) <= locks.held
      modifies this`len, locks
      ensures Valid() && objects == old(objects)
      ensures locks.held == old(locks.held) - multiset(old(Contents())) && Contents() == []
    {
      UnlockAll(objects, len, locks);
      len := 0;
    }
  }
}
