/** Reader/writer locks, abstracted from the operating system (src/sync/locks.c).

    The state of every lock is one multiset with an entry for each hold. A real lock does not
    remember its holders, and neither does this: only the number of holds in each mode matters. */
module Locks {

  /** Addresses below 2^48, the ones OBJECT_PTR_BITMASK keeps. */
  const ADDRESS_LIMIT: int := 0x1_0000_0000_0000

  type Address = a: int | 0 <= a < ADDRESS_LIMIT

  datatype Mode = Exclusive | Shared

  datatype Request = Request(addr: Address, mode: Mode)

  type Holds = multiset<Request>

  /** Would a lock call for `r` return at once? */
  predicate CanLock(held: Holds, r: Request) {
    && Request(r.addr, Exclusive) !in held
    && (r.mode == Exclusive ==> Request(r.addr, Shared) !in held)
  }

  /** Only readers share a lock. */
  lemma OnlyReadersShare(held: Holds, r: Request)
    ensures CanLock(held, r) <==> forall q :: q in held && q.addr == r.addr ==> q.mode == r.mode == Shared
  {
    forall q | q in held && q.addr == r.addr ensures q == Request(r.addr, q.mode) {
    }
  }

  /** No lock has a writer beside another holder. */
  ghost predicate Exclusion(held: Holds) {
    forall a: Address :: held[Request(a, Exclusive)] <= 1
                         && (Request(a, Exclusive) in held ==> Request(a, Shared) !in held)
  }

  lemma LockKeepsExclusion(held: Holds, r: Request)
    requires Exclusion(held) && CanLock(held, r)
    ensures Exclusion(held + multiset{r})
  {
  }

  /** The locks themselves, shared by all threads. */
  class LockTable {
    var held: Holds

    constructor ()
      ensures held == multiset{}
    {
      held := multiset{};
    }

    /** A blocking lock call that returned: the lock was free for this mode. */
    method Lock(r: Request)
      requires CanLock(held, r)
      modifies this
      ensures held == old(held) + multiset{r}
    {
      held := held + multiset{r};
    }

    method TryLock(r: Request) returns (ok: bool)
      modifies this
      ensures ok == CanLock(old(held), r)
      ensures held == if ok then old(held) + multiset{r} else old(held)
    {
      ok := CanLock(held, r);
      if ok {
        held := held + multiset{r};
      }
    }

    method Unlock(r: Request)
      requires r in held
      modifies this
      ensures held == old(held) - multiset{r}
    {
      held := held - multiset{r};
    }
  }
}
