/** When can threads that lock through their queues get stuck (src/sync/sync_queue.c:31-42, 98-153)?

    Address order inside a level is what `add_sync_object` gives. Between nested levels nothing
    enforces it. Any number of threads that all keep to address order in their blocking lock calls always
    have a step to take, whatever try-locks they mix in. The condition is exact: a script outside it has
    companions that lock one level at a time and with which it meets a deadlock. */
module DeadlockFreedom {
  import opened Locks
  import opened QueueSpec
  import opened LockProtocol

  /** A lock that is held shared and shared again is granted at once, here also while a writer waits. */
  predicate Reentry(h: Holds, b: Request) {
    b.mode == Shared && Request(b.addr, Shared) in h
  }

  /** Locking `b` beside the locks `h` keeps to address order, or re-enters a shared hold. */
  ghost predicate OrderedAfter(h: Holds, b: Request) {
    Reentry(h, b) || forall x :: x in h ==> x.addr < b.addr
  }

  /** Trying a level from entry `next` on can succeed beside the thread's own locks, if nobody else has any. */
  ghost predicate Grantable(h: Holds, plan: seq<Request>, next: nat) {
    forall j :: next <= j < |plan| ==> CanLock(h, plan[j])
  }

  /** It can be refused: some entry is locked already in another way, or could be by somebody else. */
  ghost predicate Refusable(h: Holds, plan: seq<Request>, next: nat) {
    exists j :: next <= j < |plan| && !Reentry(h, plan[j])
  }

  /** The condition on a script: each nested level that waits asks only for addresses above those locked
      already. A try-lock does not wait, and what follows it matters only where that outcome is possible. */
  ghost predicate Ordered(levels: seq<seq<Request>>, rest: seq<Op>)
    decreases rest
  {
    rest == [] ||
    (match rest[0]
     case Lock(rs) =>
       && (forall b :: b in Plan(rs) ==> OrderedAfter(Flatten(levels), b))
       && Ordered(levels + [Plan(rs)], rest[1..])
     case Unlock =>
       levels != [] && Ordered(levels[..|levels| - 1], rest[1..])
     case TryLock(rs, otherwise) =>
       && (Grantable(Flatten(levels), Plan(rs), 0) ==> Ordered(levels + [Plan(rs)], rest[1..]))
       && (Refusable(Flatten(levels), Plan(rs), 0) ==> Ordered(levels, otherwise)))
  }

  /** A script that locks one level at a time, each from an empty-handed state. */
  predicate SingleLevel(rest: seq<Op>) {
    rest == [] || (|rest| >= 2 && rest[0].Lock? && rest[1].Unlock? && SingleLevel(rest[2..]))
  }

  lemma {:induction false} SingleLevelIsOrdered(rest: seq<Op>)
    requires SingleLevel(rest)
    ensures Ordered([], rest) && WellNested(rest, 0)
  {
    if rest != [] {
      SingleLevelIsOrdered(rest[2..]);
      var plan := Plan(rest[0].requests);
      assert [plan][..0] == [];
      assert rest[1..][1..] == rest[2..];
      assert Ordered([plan], rest[1..]);
      assert [] + [plan] == [plan];
    }
  }

  ghost predicate ThreadOrdered(t: Thread) {
    match t.phase
    case Idle => Ordered(t.levels, t.rest)
    case Acquiring(plan, next) =>
      && (forall j :: next <= j < |plan| ==> OrderedAfter(Flatten(t.levels), plan[j]))
      && Ordered(t.levels + [plan], t.rest)
    case Releasing(_, _) => Ordered(t.levels, t.rest)
    case Trying(plan, next, otherwise) =>
      && (Grantable(Flatten(t.levels), plan, next) ==> Ordered(t.levels + [plan], t.rest))
      && (Refusable(Flatten(t.levels), plan, next) ==> Ordered(t.levels, otherwise))
    case Undoing(_, _) => Ordered(t.levels, t.rest)
  }

  /** A script, or a thread, without try-locks. */
  predicate Blocking(rest: seq<Op>) {
    forall i :: 0 <= i < |rest| ==> !rest[i].TryLock?
  }

  predicate NoTry(t: Thread) {
    Blocking(t.rest) && !t.phase.Trying? && !t.phase.Undoing?
  }

  lemma NextNoTry(t: Thread, held: Holds)
    requires NoTry(t) && HasNext(t)
    ensures NoTry(Next(t, held)) && Next(t, held) == Next(t, multiset{})
  {
    hide CanLock;
  }

  /** The step at which a thread leaves address order. */
  ghost predicate Offends(t: Thread) {
    AtLockCall(t) && !OrderedAfter(Flatten(t.levels), Wanted(t))
  }

  lemma OrderedNeverOffends(t: Thread)
    requires ThreadOk(t) && ThreadOrdered(t)
    ensures !Offends(t)
  {
  }

  /** Outside of tries, a step that does not leave address order changes nothing about the condition. */
  lemma PlainOrdered(t: Thread, held: Holds)
    requires ThreadOk(t) && !Done(t) && !t.phase.Trying? && !Offends(t)
    ensures ThreadOrdered(t) <==> ThreadOrdered(Next(t, held))
  {
    hide CanLock, OrderedAfter, Grantable, Refusable;
    if t.phase.Idle? && t.rest[0].Lock? {
      var plan := Plan(t.rest[0].requests);
      assert forall b :: b in plan <==> exists j :: 0 <= j < |plan| && plan[j] == b;
    }
  }

  /** An entry that is refused is no shared re-entry, and one that is granted was compatible. */
  lemma TriedOrdered(t: Thread, held: Holds)
    requires ThreadOk(t) && t.phase.Trying? && ThreadOrdered(t)
    requires HeldBy(t) <= held && Exclusion(held)
    ensures ThreadOrdered(Next(t, held))
  {
    hide Ordered, WellNested, Taken, Flatten;
    var plan, next, own := t.phase.plan, t.phase.next, Flatten(t.levels);
    if next < |plan| {
      assert forall x :: x in own ==> x in HeldBy(t) && x in held;
      if TryWorks(t, held) {
        assert CanLock(own, plan[next]);
      } else {
        assert !Reentry(own, plan[next]);
      }
    }
  }

  lemma NextOrdered(t: Thread, held: Holds)
    requires ThreadOk(t) && !Done(t) && ThreadOrdered(t)
    requires HeldBy(t) <= held && Exclusion(held)
    ensures ThreadOrdered(Next(t, held))
  {
    hide Next, ThreadOrdered, Exclusion, HeldBy;
    OrderedNeverOffends(t);
    if t.phase.Trying? {
      TriedOrdered(t, held);
    } else {
      PlainOrdered(t, held);
    }
  }

  /** A lock held by nobody else is free to a thread that keeps to address order. */
  lemma OwnLocksNeverBlock(t: Thread)
    requires ThreadOk(t) && AtLockCall(t) && !Offends(t) && Exclusion(HeldBy(t))
    ensures CanLock(HeldBy(t), Wanted(t))
  {
    var b := Wanted(t);
    assert forall x :: x in Taken(t.phase.plan, t.phase.next) ==> x in t.phase.plan[..t.phase.next];
    if exists x :: x in HeldBy(t) && x.addr == b.addr {
      assert Request(b.addr, Shared) in HeldBy(t);
    }
  }

  // ---- Sufficiency ----

  ghost predicate Stuck(s: System) {
    && (exists i :: 0 <= i < |s.threads| && !Done(s.threads[i]))
    && (forall i :: 0 <= i < |s.threads| ==> !CanStep(s, i))
  }

  ghost predicate AllOrdered(s: System) {
    forall i :: 0 <= i < |s.threads| ==> ThreadOrdered(s.threads[i])
  }

  ghost predicate Waiting(s: System, i: nat) {
    i < |s.threads| && AtLockCall(s.threads[i])
  }

  /** Among the waiting threads of the first `n`, one that waits for the highest address. */
  lemma {:induction false} HighestWaiting(s: System, n: nat) returns (w: nat)
    requires 0 < n <= |s.threads| && exists i :: 0 <= i < n && Waiting(s, i)
    ensures w < n && Waiting(s, w)
    ensures forall i :: 0 <= i < n && Waiting(s, i) ==> Wanted(s.threads[i]).addr <= Wanted(s.threads[w]).addr
  {
    if exists i :: 0 <= i < n - 1 && Waiting(s, i) {
      w := HighestWaiting(s, n - 1);
      if Waiting(s, n - 1) && Wanted(s.threads[n - 1]).addr > Wanted(s.threads[w]).addr {
        w := n - 1;
      }
    } else {
      w := n - 1;
    }
  }

  lemma DoneHoldsNothing(t: Thread)
    requires ThreadOk(t) && Done(t)
    ensures HeldBy(t) == multiset{}
  {
  }

  /** Someone holds every lock that is not free. */
  lemma Blocker(s: System, r: Request) returns (u: nat, h: Request)
    requires Inv(s) && !CanLock(s.held, r)
    ensures u < |s.threads| && h in HeldBy(s.threads[u]) && h in s.held && h.addr == r.addr
  {
    h := if Request(r.addr, Exclusive) in s.held then Request(r.addr, Exclusive) else Request(r.addr, Shared);
    u := SumMember(Each(s.threads), h);
  }

  /** Threads that keep to address order are never stuck, however many there are. */
  lemma NeverStuck(s: System)
    requires Inv(s) && AllOrdered(s)
    ensures !Stuck(s)
  {
    if Stuck(s) {
      forall i | 0 <= i < |s.threads| && !Done(s.threads[i])
        ensures Waiting(s, i) && !CanLock(s.held, Wanted(s.threads[i]))
      {
        assert !CanStep(s, i);
      }
      var w := HighestWaiting(s, |s.threads|);
      var b := Wanted(s.threads[w]);
      assert !CanStep(s, w);
      var u, h := Blocker(s, b);
      var tu := s.threads[u];
      if Done(tu) {
        DoneHoldsNothing(tu);
      }
      assert Waiting(s, u);
      var c := Wanted(tu);
      WaiterHoldsBelow(s, u);
      assert false;
    }
  }

  /** A thread that is kept waiting holds only locks below the one it waits for. */
  lemma WaiterHoldsBelow(s: System, u: nat)
    requires Inv(s) && u < |s.threads| && ThreadOrdered(s.threads[u]) && AtLockCall(s.threads[u])
    requires !CanLock(s.held, Wanted(s.threads[u]))
    ensures forall x :: x in HeldBy(s.threads[u]) ==> x.addr < Wanted(s.threads[u]).addr
  {
    var t := s.threads[u];
    OrderedNeverOffends(t);
    TotalUpdate(s.threads, u, t);
    assert forall x :: x in Taken(t.phase.plan, t.phase.next) ==> x in t.phase.plan[..t.phase.next];
  }

  // ---- Every run ends ----

  function Max(a: nat, b: nat): (m: nat)
    ensures m >= a && m >= b
  {
    if a < b then b else a
  }

  function Cost(rest: seq<Op>): nat
    decreases rest
  {
    if rest == [] then 0
    else
      match rest[0]
      case Lock(rs) => 2 * |Plan(rs)| + 2 + Cost(rest[1..])
      case Unlock => 2 + Cost(rest[1..])
      case TryLock(rs, otherwise) => 2 * |Plan(rs)| + 2 + Max(Cost(rest[1..]), Cost(otherwise))
  }

  function Size(levels: seq<seq<Request>>): nat {
    if levels == [] then 0 else Size(levels[..|levels| - 1]) + |levels[|levels| - 1]|
  }

  /** The number of steps a thread has left, at most; exactly if there are no try-locks. */
  function Remaining(t: Thread): int {
    Size(t.levels) +
    match t.phase
    case Idle => Cost(t.rest)
    case Acquiring(plan, next) => (|plan| - next) + |plan| + 1 + Cost(t.rest)
    case Releasing(plan, next) => (|plan| - next) + 1 + Cost(t.rest)
    case Trying(plan, next, otherwise) => (|plan| - next) + |plan| + 1 + Max(Cost(t.rest), Cost(otherwise))
    case Undoing(plan, next) => next + 1 + Cost(t.rest)
  }

  lemma NextRemaining(t: Thread, held: Holds)
    requires ThreadOk(t) && !Done(t)
    ensures ThreadOk(Next(t, held)) && Remaining(Next(t, held)) < Remaining(t)
    ensures NoTry(t) ==> Remaining(Next(t, held)) == Remaining(t) - 1
  {
    NextOk(t, held);
    hide CanLock;
    if (t.phase.Acquiring? || t.phase.Trying?) && t.phase.next == |t.phase.plan| {
      assert (t.levels + [t.phase.plan])[..|t.levels|] == t.levels;
    }
  }

  lemma DoneIffNothingRemains(t: Thread)
    requires ThreadOk(t)
    ensures Done(t) <==> Remaining(t) == 0
  {
  }

  function Work(threads: seq<Thread>): int {
    if threads == [] then 0 else Work(threads[..|threads| - 1]) + Remaining(threads[|threads| - 1])
  }

  lemma {:induction false} WorkUpdate(ts: seq<Thread>, i: nat, t: Thread)
    requires i < |ts|
    ensures Work(ts[i := t]) == Work(ts) - Remaining(ts[i]) + Remaining(t)
  {
    var n := |ts| - 1;
    if i < n {
      WorkUpdate(ts[..n], i, t);
      assert ts[i := t][..n] == ts[..n][i := t];
    } else {
      assert ts[i := t][..n] == ts[..n];
    }
  }

  ghost predicate AllNoTry(s: System) {
    forall i :: 0 <= i < |s.threads| ==> NoTry(s.threads[i])
  }

  lemma StepWork(s: System, i: nat)
    requires Inv(s) && CanStep(s, i)
    ensures Inv(Step(s, i)) && Work(Step(s, i).threads) < Work(s.threads)
    ensures AllNoTry(s) ==> AllNoTry(Step(s, i)) && Work(Step(s, i).threads) == Work(s.threads) - 1
  {
    StepKeepsInv(s, i);
    hide Remaining, Next, Exclusion, NoTry;
    NextRemaining(s.threads[i], s.held);
    WorkUpdate(s.threads, i, Next(s.threads[i], s.held));
    if AllNoTry(s) {
      NextNoTry(s.threads[i], s.held);
    }
  }

  /** No interleaving runs on for ever: the work left bounds the steps. Without try-locks it is their number,
      the same for every interleaving. */
  lemma {:induction false} EveryRunEnds(s: System, schedule: seq<nat>)
    requires Inv(s) && IsRun(s, schedule)
    ensures Inv(Run(s, schedule)) && |schedule| + Work(Run(s, schedule).threads) <= Work(s.threads)
    ensures AllNoTry(s) ==> |schedule| + Work(Run(s, schedule).threads) == Work(s.threads)
    decreases schedule
  {
    hide Inv, AllNoTry, Step, Work, CanLock, AtLockCall;
    if schedule != [] {
      StepWork(s, schedule[0]);
      EveryRunEnds(Step(s, schedule[0]), schedule[1..]);
    }
  }

  lemma {:induction false} NoWorkAllDone(ts: seq<Thread>)
    requires forall j :: 0 <= j < |ts| ==> ThreadOk(ts[j])
    ensures Work(ts) >= 0
    ensures Work(ts) == 0 <==> forall j :: 0 <= j < |ts| ==> Done(ts[j])
  {
    if ts != [] {
      var n := |ts| - 1;
      NoWorkAllDone(ts[..n]);
      DoneIffNothingRemains(ts[n]);
      assert forall j :: 0 <= j < n ==> ts[..n][j] == ts[j];
    }
  }

  lemma StepOrdered(s: System, i: nat)
    requires Inv(s) && AllOrdered(s) && CanStep(s, i)
    ensures Inv(Step(s, i)) && AllOrdered(Step(s, i))
  {
    StepKeepsInv(s, i);
    hide Next, ThreadOrdered, Exclusion, HeldBy, ThreadOk;
    TotalUpdate(s.threads, i, s.threads[i]);
    NextOrdered(s.threads[i], s.held);
  }

  lemma {:induction false} RunOrdered(s: System, schedule: seq<nat>)
    requires Inv(s) && AllOrdered(s) && IsRun(s, schedule)
    ensures AllOrdered(Run(s, schedule))
    decreases schedule
  {
    hide Inv, AllOrdered, Step, CanLock, AtLockCall;
    if schedule != [] {
      StepOrdered(s, schedule[0]);
      RunOrdered(Step(s, schedule[0]), schedule[1..]);
    }
  }

  ghost predicate AllDone(s: System) {
    forall i :: 0 <= i < |s.threads| ==> Done(s.threads[i])
  }

  lemma AllDoneHoldNothing(s: System)
    requires Inv(s) && AllDone(s)
    ensures s.held == multiset{}
  {
    forall i | 0 <= i < |s.threads| ensures Each(s.threads)[i] == multiset{} {
      DoneHoldsNothing(s.threads[i]);
    }
    SumEmpty(Each(s.threads));
  }

  /** Any number of threads that keep to address order, started empty-handed: whatever has run so
      far, the system is not stuck, and when no thread can step all are done and every lock is free. The
      steps are bounded, and without try-locks all are done after exactly that many. */
  lemma {:induction false} DeadlockFree(s: System, schedule: seq<nat>)
    requires Initial(s) && AllOrdered(s) && IsRun(s, schedule)
    ensures var e := Run(s, schedule);
            && Inv(e)
            && ((exists i :: CanStep(e, i)) || AllDone(e))
            && |schedule| <= Work(s.threads)
            && (AllDone(e) ==> e.held == multiset{})
            && (AllNoTry(s) ==> (|schedule| == Work(s.threads) <==> AllDone(e)))
  {
    var e := Run(s, schedule);
    InitialInv(s);
    RunKeepsInv(s, schedule);
    RunOrdered(s, schedule);
    NeverStuck(e);
    EveryRunEnds(s, schedule);
    NoWorkAllDone(e.threads);
    if AllDone(e) {
      AllDoneHoldNothing(e);
    }
  }

  // ---- Necessity ----

  lemma DisorderedNotDone(t: Thread)
    requires ThreadOk(t) && !ThreadOrdered(t)
    ensures !Done(t) && HasNext(t)
  {
  }

  /** Threads that have not begun and lock one level at a time. */
  ghost predicate Company(cs: seq<Thread>) {
    forall i :: 0 <= i < |cs| ==> Fresh(cs[i]) && SingleLevel(cs[i].rest)
  }

  /** A thread beside others that hold nothing. */
  function Beside(t: Thread, cs: seq<Thread>): System {
    System([t] + cs, HeldBy(t))
  }

  /** One step of the thread, undisturbed. */
  lemma StepAlone(t: Thread, cs: seq<Thread>)
    requires ThreadOk(t) && !Done(t) && !Offends(t) && Exclusion(HeldBy(t))
    ensures var u := Next(t, HeldBy(t));
      && CanStep(Beside(t, cs), 0) && Step(Beside(t, cs), 0) == Beside(u, cs)
      && ThreadOk(u) && Exclusion(HeldBy(u))
  {
    hide Next, HeldNext, Exclusion, HeldBy, CanLock, Offends;
    var none: Holds := multiset{};
    assert none + HeldBy(t) == HeldBy(t);
    NextHolds(t, none);
    assert none + HeldBy(Next(t, HeldBy(t))) == HeldBy(Next(t, HeldBy(t)));
    NextOk(t, HeldBy(t));
    if AtLockCall(t) {
      OwnLocksNeverBlock(t);
    }
    StepExclusion(t, HeldBy(t));
    assert ([t] + cs)[0] == t && ([t] + cs)[0 := Next(t, HeldBy(t))] == [Next(t, HeldBy(t))] + cs;
  }

  lemma {:induction false} RunAppend(s: System, first: seq<nat>, second: seq<nat>)
    requires IsRun(s, first) && IsRun(Run(s, first), second)
    ensures IsRun(s, first + second) && Run(s, first + second) == Run(Run(s, first), second)
    decreases first
  {
    if first == [] {
      assert first + second == second;
    } else {
      assert (first + second)[1..] == first[1..] + second;
      RunAppend(Step(s, first[0]), first[1..], second);
    }
  }

  // Threads that are done do not matter.

  function Add(s: System, c: Thread): System {
    System(s.threads + [c], s.held)
  }

  lemma {:induction false} AddDone(s: System, d: Thread, schedule: seq<nat>)
    requires Done(d) && IsRun(s, schedule)
    ensures IsRun(Add(s, d), schedule) && Run(Add(s, d), schedule) == Add(Run(s, schedule), d)
    decreases schedule
  {
    hide Next, HeldNext, CanLock, AtLockCall;
    if schedule != [] {
      var i := schedule[0];
      assert Add(s, d).threads[i] == s.threads[i];
      assert Step(Add(s, d), i).threads == Step(s, i).threads + [d];
      AddDone(Step(s, i), d, schedule[1..]);
    }
  }

  lemma StuckWithDone(s: System, d: Thread)
    requires Done(d) && Stuck(s)
    ensures Stuck(Add(s, d))
  {
    hide CanLock, AtLockCall, Wanted;
    var i :| 0 <= i < |s.threads| && !Done(s.threads[i]);
    assert Add(s, d).threads[i] == s.threads[i];
    forall j | 0 <= j < |s.threads| + 1 ensures !CanStep(Add(s, d), j) {
      if j < |s.threads| {
        assert !CanStep(s, j);
      }
    }
  }

  // A try-lock is made to fail.

  /** The companion that gets a try-lock refused: it holds the lock meanwhile. */
  function Holder(a: Address): Thread {
    Thread([], Idle, [Lock([Request(a, Exclusive)]), Unlock])
  }

  /** The companion once it has the lock. */
  function HolderInside(a: Address): Thread {
    Thread([], Acquiring([Request(a, Exclusive)], 1), [Unlock])
  }

  lemma HolderPlan(a: Address)
    ensures Plan([Request(a, Exclusive)]) == [Request(a, Exclusive)]
    ensures Fresh(Holder(a)) && SingleLevel(Holder(a).rest)
  {
    var r := Request(a, Exclusive);
    assert [r][..0] == [];
    var rest := Holder(a).rest;
    assert rest[1..] == [Unlock] && rest[1..][1..] == [] && rest[2..] == [];
  }

  lemma StepLast(ts: seq<Thread>, c: Thread, held: Holds)
    requires HasNext(c) && (AtLockCall(c) ==> CanLock(held, Wanted(c)))
    ensures CanStep(System(ts + [c], held), |ts|)
    ensures Step(System(ts + [c], held), |ts|) == System(ts + [Next(c, held)], HeldNext(c, held))
  {
    hide Next, HeldNext, CanLock, Wanted;
    assert (ts + [c])[|ts|] == c && (ts + [c])[|ts| := Next(c, held)] == ts + [Next(c, held)];
  }

  lemma OneThen(s: System, m: System, i: nat, rest: seq<nat>)
    requires CanStep(s, i) && Step(s, i) == m && IsRun(m, rest)
    ensures IsRun(s, [i] + rest) && Run(s, [i] + rest) == Run(m, rest)
  {
    assert ([i] + rest)[1..] == rest;
  }

  lemma HolderTakes(ts: seq<Thread>, a: Address, held: Holds)
    requires CanLock(held, Request(a, Exclusive))
    ensures var s := System(ts + [Holder(a)], held);
      && IsRun(s, [|ts|, |ts|])
      && Run(s, [|ts|, |ts|]) == System(ts + [HolderInside(a)], held + multiset{Request(a, Exclusive)})
  {
    HolderPlan(a);
    var k, c := |ts|, Holder(a);
    var d := Thread([], Acquiring([Request(a, Exclusive)], 0), [Unlock]);
    assert c.rest[1..] == [Unlock];
    assert Next(c, held) == d && Next(d, held) == HolderInside(a);
    StepLast(ts, c, held);
    StepLast(ts, d, held);
    var m, e := System(ts + [d], held), System(ts + [HolderInside(a)], held + multiset{Request(a, Exclusive)});
    OneThen(m, e, k, []);
    OneThen(System(ts + [c], held), m, k, [k] + []);
    assert [k] + ([k] + []) == [k, k];
  }

  /** It goes on to the end of its script. */
  lemma HolderSteps(a: Address, held: Holds, c1: Thread, c2: Thread, c3: Thread)
    requires c1 == Thread([[Request(a, Exclusive)]], Idle, [Unlock])
    requires c2 == Thread([], Releasing([Request(a, Exclusive)], 0), [])
    requires c3 == Thread([], Releasing([Request(a, Exclusive)], 1), [])
    ensures var with := held + multiset{Request(a, Exclusive)};
      && Next(HolderInside(a), with) == c1 && Next(c1, with) == c2 && Next(c2, with) == c3
      && Next(c3, held) == Thread([], Idle, [])
      && HeldNext(HolderInside(a), with) == HeldNext(c1, with) == with
      && HeldNext(c2, with) == held == HeldNext(c3, held)
  {
    hide CanLock;
    var r := Request(a, Exclusive);
    assert [] + [[r]] == [[r]] && [[r]][..0] == [] && c1.rest[1..] == [];
    assert held + multiset{r} - multiset{r} == held;
  }

  lemma HolderGives(ts: seq<Thread>, a: Address, held: Holds)
    ensures var s := System(ts + [HolderInside(a)], held + multiset{Request(a, Exclusive)}); var k := |ts|;
      && IsRun(s, [k, k, k, k])
      && Run(s, [k, k, k, k]) == System(ts + [Thread([], Idle, [])], held)
  {
    hide CanLock, Next, HeldNext, CanStep, Step, Run;
    var k, r := |ts|, Request(a, Exclusive);
    var with := held + multiset{r};
    var c1, c2 := Thread([[r]], Idle, [Unlock]), Thread([], Releasing([r], 0), []);
    var c3 := Thread([], Releasing([r], 1), []);
    HolderSteps(a, held, c1, c2, c3);
    StepLast(ts, HolderInside(a), with);
    StepLast(ts, c1, with);
    StepLast(ts, c2, with);
    StepLast(ts, c3, held);
    var e := System(ts + [Thread([], Idle, [])], held);
    RunNone(e);
    OneThen(System(ts + [c3], held), e, k, []);
    OneThen(System(ts + [c2], with), System(ts + [c3], held), k, [k] + []);
    OneThen(System(ts + [c1], with), System(ts + [c2], with), k, [k] + ([k] + []));
    OneThen(System(ts + [HolderInside(a)], with), System(ts + [c1], with), k, [k] + ([k] + ([k] + [])));
    assert [k] + ([k] + ([k] + ([k] + []))) == [k, k, k, k];
  }

  lemma RunNone(s: System)
    ensures Run(s, []) == s
  {
  }

  /** Where a thread's own next step brings it back to the condition, only a refusal leads out of it, and
      somebody else can hold the lock it tries next. */
  lemma RefusalNeeded(t: Thread)
    requires ThreadOk(t) && !Done(t) && !Offends(t) && !ThreadOrdered(t) && ThreadOrdered(Next(t, HeldBy(t)))
    ensures t.phase.Trying? && t.phase.next < |t.phase.plan| && !Ordered(t.levels, t.phase.otherwise)
    ensures CanLock(HeldBy(t), Request(t.phase.plan[t.phase.next].addr, Exclusive))
  {
    hide Ordered, WellNested, HeldBy, CanLock, Exclusion, Reentry, OrderedAfter, Flatten;
    if !t.phase.Trying? {
      PlainOrdered(t, HeldBy(t));
    } else if t.phase.next < |t.phase.plan| {
      OwnEntries(t);
    }
  }

  /** Entries taken already do not affect the next one. */
  lemma OwnEntries(t: Thread)
    requires ThreadOk(t) && t.phase.Trying? && t.phase.next < |t.phase.plan|
    ensures var own, plan, next := Flatten(t.levels), t.phase.plan, t.phase.next;
      && (CanLock(own, plan[next]) <==> CanLock(HeldBy(t), plan[next]))
      && (Grantable(own, plan, next) <==> CanLock(own, plan[next]) && Grantable(own, plan, next + 1))
      && (Refusable(own, plan, next) <==> !Reentry(own, plan[next]) || Refusable(own, plan, next + 1))
      && (CanLock(own, plan[next]) && !Reentry(own, plan[next])
        ==> CanLock(HeldBy(t), Request(plan[next].addr, Exclusive)))
  {
    hide Flatten, WellNested;
    var own, plan, next := Flatten(t.levels), t.phase.plan, t.phase.next;
    hide Grantable, Refusable;
    OthersTaken(plan, next);
    assert forall x :: x in HeldBy(t) <==> x in own || x in Taken(plan, next);
    GrantableStep(own, plan, next);
  }

  lemma OthersTaken(plan: seq<Request>, next: nat)
    requires Ascending(plan) && next < |plan|
    ensures forall x :: x in Taken(plan, next) ==> x.addr < plan[next].addr
  {
    assert forall x :: x in Taken(plan, next) ==> x in plan[..next];
  }

  lemma GrantableStep(own: Holds, plan: seq<Request>, next: nat)
    requires next < |plan|
    ensures Grantable(own, plan, next) <==> CanLock(own, plan[next]) && Grantable(own, plan, next + 1)
    ensures Refusable(own, plan, next) <==> !Reentry(own, plan[next]) || Refusable(own, plan, next + 1)
  {
    hide CanLock, Reentry;
  }

  /** The thread when the entry it tries next has been refused. */
  function Refused(t: Thread): Thread
    requires t.phase.Trying?
  {
    Thread(t.levels, Undoing(t.phase.plan, t.phase.next), t.phase.otherwise)
  }

  lemma RefusedIsNext(t: Thread, held: Holds)
    requires ThreadOk(t) && t.phase.Trying? && t.phase.next < |t.phase.plan|
      && !CanLock(held, t.phase.plan[t.phase.next])
    ensures Next(t, held) == Refused(t) && HeldNext(t, held) == held && HeldBy(Refused(t)) == HeldBy(t)
    ensures ThreadOk(Refused(t)) && Remaining(Refused(t)) < Remaining(t)
    ensures ThreadOrdered(Refused(t)) <==> Ordered(t.levels, t.phase.otherwise)
  {
    hide CanLock;
    NextRemaining(t, held);
  }

  /** The companion takes the lock, the thread is refused, and the companion gives the lock back. */
  lemma RefusedRun(t: Thread, cs: seq<Thread>, a: Address, k: nat)
    requires ThreadOk(t) && t.phase.Trying? && t.phase.next < |t.phase.plan| && a == t.phase.plan[t.phase.next].addr
    requires CanLock(HeldBy(t), Request(a, Exclusive)) && k == 1 + |cs|
    ensures var s := Beside(t, cs + [Holder(a)]); var schedule := [k, k] + ([0] + [k, k, k, k]);
      && IsRun(s, schedule)
      && Run(s, schedule) == Add(Beside(Refused(t), cs), Thread([], Idle, []))
  {
    hide Next, HeldNext, HeldBy, Remaining, ThreadOk, ThreadOrdered;
    var r, ts, us := Request(a, Exclusive), [t] + cs, [Refused(t)] + cs;
    var with := HeldBy(t) + multiset{r};
    assert [t] + (cs + [Holder(a)]) == ts + [Holder(a)];
    HolderTakes(ts, a, HeldBy(t));
    assert r in with && !CanLock(with, t.phase.plan[t.phase.next]);
    RefusedIsNext(t, with);
    var m := System(ts + [HolderInside(a)], with);
    assert m.threads[0] == t && m.threads[0 := Refused(t)] == us + [HolderInside(a)];
    var e := System(us + [HolderInside(a)], with);
    assert CanStep(m, 0) && Step(m, 0) == e;
    HolderGives(us, a, HeldBy(t));
    hide Run, IsRun, CanLock, CanStep, Step;
    OneThen(m, e, 0, [k, k, k, k]);
    RunAppend(Beside(t, cs + [Holder(a)]), [k, k], [0] + [k, k, k, k]);
  }

  /** The companion that meets an offender: it locks, in address order, the lock the offender will ask
      for next and one above it that the offender already holds. */
  function Companion(low: Address, high: Address): Thread {
    Thread([], Idle, [Lock([Request(low, Exclusive), Request(high, Exclusive)]), Unlock])
  }

  lemma CompanionPlan(low: Address, high: Address)
    requires low < high
    ensures Plan([Request(low, Exclusive), Request(high, Exclusive)])
      == [Request(low, Exclusive), Request(high, Exclusive)]
    ensures Fresh(Companion(low, high)) && SingleLevel(Companion(low, high).rest)
  {
    var l, h := Request(low, Exclusive), Request(high, Exclusive);
    assert [l, h][..1] == [l] && [l][..0] == [] && [l][1..] == [];
    assert Plan([l]) == Insert(Plan([]), l) == [l];
    assert Insert([l], h) == [l] + Insert([], h) == [l, h];
    assert Plan([l, h]) == Insert(Plan([l]), h);
    var rest := Companion(low, high).rest;
    assert rest[1..] == [Unlock] && rest[1..][1..] == [] && rest[2..] == [];
  }

  lemma HeldBlocks(held: Holds, x: Request, r: Request)
    requires x in held && x.addr == r.addr && (x.mode == Exclusive || r.mode == Exclusive)
    ensures !CanLock(held, r)
  {
    assert x == Request(r.addr, x.mode);
  }

  /** An offender that already holds the very lock it asks for blocks itself. */
  lemma BlocksItself(t: Thread, x: Request)
    requires Offends(t) && x in Flatten(t.levels) && x.addr == Wanted(t).addr
    ensures Stuck(Beside(t, []))
  {
    var s := Beside(t, []);
    assert x == Request(Wanted(t).addr, x.mode) && x in s.held;
    HeldBlocks(s.held, x, Wanted(t));
    assert s.threads[0] == t && !Done(s.threads[0]);
  }

  /** The companion's two steps: it starts its lock call and takes the lower lock. */
  lemma CompanionSteps(t: Thread, low: Address, high: Address) returns (e: System)
    requires low < high && forall x :: x in HeldBy(t) ==> x.addr != low
    ensures var s := Beside(t, [Companion(low, high)]); IsRun(s, [1, 1]) && e == Run(s, [1, 1])
    ensures |e.threads| == 2 && e.threads[0] == t
    ensures AtLockCall(e.threads[1]) && Wanted(e.threads[1]) == Request(high, Exclusive)
    ensures e.held == HeldBy(t) + multiset{Request(low, Exclusive)}
  {
    hide HeldBy;
    var c := Companion(low, high);
    CompanionPlan(low, high);
    StepLast([t], c, HeldBy(t));
    var d := Next(c, HeldBy(t));
    assert Wanted(d) == Request(low, Exclusive);
    StepLast([t], d, HeldBy(t));
    e := System([t] + [Next(d, HeldBy(t))], HeldNext(d, HeldBy(t)));
    assert [1, 1][1..] == [1] && [1][1..] == [];
  }

  lemma WantedNotHeld(t: Thread)
    requires ThreadOk(t) && AtLockCall(t)
    requires forall x :: x in Flatten(t.levels) ==> x.addr != Wanted(t).addr
    ensures forall x :: x in HeldBy(t) ==> x.addr != Wanted(t).addr
  {
    assert forall x :: x in Taken(t.phase.plan, t.phase.next) ==> x in t.phase.plan[..t.phase.next];
  }

  /** An offender that holds a lock above the one it asks for is caught by the companion. */
  lemma CaughtByCompanion(t: Thread, high: Request)
    requires ThreadOk(t) && Offends(t) && high in Flatten(t.levels) && high.addr > Wanted(t).addr
    requires forall x :: x in Flatten(t.levels) ==> x.addr != Wanted(t).addr
    ensures var s := Beside(t, [Companion(Wanted(t).addr, high.addr)]);
      IsRun(s, [1, 1]) && Stuck(Run(s, [1, 1]))
  {
    hide IsRun, Run, Stuck, CanLock, Flatten, WellNested, OrderedAfter, Companion, Beside;
    var b := Wanted(t);
    WantedNotHeld(t);
    var e := CompanionSteps(t, b.addr, high.addr);
    assert high in HeldBy(t);
    HeldBlocks(e.held, Request(b.addr, Exclusive), b);
    HeldBlocks(e.held, high, Request(high.addr, Exclusive));
    BothBlocked(e);
  }

  lemma BothBlocked(s: System)
    requires |s.threads| == 2
    requires forall i :: 0 <= i < 2 ==> AtLockCall(s.threads[i]) && !CanLock(s.held, Wanted(s.threads[i]))
    ensures Stuck(s)
  {
    assert !Done(s.threads[0]);
  }

  /** What an offender holds that it should not. */
  lemma Offence(t: Thread) returns (x: Request)
    requires Offends(t)
    ensures AtLockCall(t) && x in Flatten(t.levels)
    ensures x.addr == Wanted(t).addr
      || (x.addr > Wanted(t).addr && forall y :: y in Flatten(t.levels) ==> y.addr != Wanted(t).addr)
  {
    hide Flatten;
    var own, b := Flatten(t.levels), Wanted(t);
    if y :| y in own && y.addr == b.addr {
      x := y;
    } else {
      x :| x in own && x.addr > b.addr;
    }
  }

  lemma CatchOffender(t: Thread) returns (cs: seq<Thread>, schedule: seq<nat>)
    requires ThreadOk(t) && Offends(t)
    ensures Company(cs) && |cs| <= 1
    ensures IsRun(Beside(t, cs), schedule) && Stuck(Run(Beside(t, cs), schedule))
  {
    hide Stuck, SingleLevel, Fresh, Flatten, Offends, Wanted, ThreadOk, Beside, CanStep, Step;
    var x := Offence(t);
    if x.addr == Wanted(t).addr {
      cs, schedule := [], [];
      BlocksItself(t, x);
    } else {
      cs, schedule := [Companion(Wanted(t).addr, x.addr)], [1, 1];
      CompanionPlan(Wanted(t).addr, x.addr);
      CaughtByCompanion(t, x);
    }
  }

  /** A thread outside the condition, among companions chosen for it: it goes its own way, gets a try-lock
      refused where only that leads on, and is caught at its first offence. */
  lemma {:induction false} Catch(t: Thread) returns (cs: seq<Thread>, schedule: seq<nat>)
    requires ThreadOk(t) && Exclusion(HeldBy(t)) && !ThreadOrdered(t)
    ensures Company(cs) && (NoTry(t) ==> |cs| <= 1)
    ensures IsRun(Beside(t, cs), schedule) && Stuck(Run(Beside(t, cs), schedule))
    decreases Remaining(t)
  {
    hide ThreadOk, ThreadOrdered, Offends, Exclusion, HeldBy, Next, Remaining, Stuck, CanStep, Step, IsRun, Run,
      Ordered, CanLock, HasNext, SingleLevel, Fresh;
    DisorderedNotDone(t);
    RemainsPositive(t);
    if Offends(t) {
      cs, schedule := CatchOffender(t);
    } else if !ThreadOrdered(Next(t, HeldBy(t))) {
      NextRemaining(t, HeldBy(t));
      StepAlone(t, []);
      var rest;
      cs, rest := Catch(Next(t, HeldBy(t)));
      StepAlone(t, cs);
      OneThen(Beside(t, cs), Beside(Next(t, HeldBy(t)), cs), 0, rest);
      schedule := [0] + rest;
      if NoTry(t) {
        NextNoTry(t, HeldBy(t));
      }
    } else {
      RefusalNeeded(t);
      cs, schedule := CatchRefused(t);
    }
  }

  lemma RemainsPositive(t: Thread)
    requires ThreadOk(t)
    ensures Remaining(t) >= 0
  {
    DoneIffNothingRemains(t);
  }

  lemma {:induction false} CatchRefused(t: Thread) returns (cs: seq<Thread>, schedule: seq<nat>)
    requires ThreadOk(t) && Exclusion(HeldBy(t))
    requires t.phase.Trying? && t.phase.next < |t.phase.plan| && !Ordered(t.levels, t.phase.otherwise)
    requires CanLock(HeldBy(t), Request(t.phase.plan[t.phase.next].addr, Exclusive))
    ensures Company(cs) && IsRun(Beside(t, cs), schedule) && Stuck(Run(Beside(t, cs), schedule))
    decreases Remaining(t), 0
  {
    hide ThreadOk, ThreadOrdered, Exclusion, HeldBy, Next, Remaining, Stuck, IsRun, Run, Ordered, CanLock, Fresh,
      SingleLevel;
    var a := t.phase.plan[t.phase.next].addr;
    TakenBlocks(HeldBy(t), t.phase.plan[t.phase.next]);
    RefusedIsNext(t, HeldBy(t) + multiset{Request(a, Exclusive)});
    RemainsPositive(t);
    RemainsPositive(Refused(t));
    var others, rest := Catch(Refused(t));
    var k, idle := 1 + |others|, Thread([], Idle, []);
    cs := others + [Holder(a)];
    HolderPlan(a);
    RefusedRun(t, others, a, k);
    var first := [k, k] + ([0] + [k, k, k, k]);
    AddDone(Beside(Refused(t), others), idle, rest);
    StuckWithDone(Run(Beside(Refused(t), others), rest), idle);
    RunAppend(Beside(t, cs), first, rest);
    schedule := first + rest;
  }

  lemma TakenBlocks(held: Holds, b: Request)
    ensures !CanLock(held + multiset{Request(b.addr, Exclusive)}, b)
  {
    assert Request(b.addr, Exclusive) in held + multiset{Request(b.addr, Exclusive)};
  }

  // ---- The condition is exact ----

  /** A thread with this script beside any number of threads that lock one level at a time. */
  ghost predicate AmongSingleLevel(s: System, script: seq<Op>) {
    && Initial(s) && 0 < |s.threads| && s.threads[0].rest == script
    && (forall i :: 0 < i < |s.threads| ==> SingleLevel(s.threads[i].rest))
  }

  /** `script` never gets stuck in such company. */
  ghost predicate SafeAmongSingleLevel(script: seq<Op>) {
    forall s, schedule :: AmongSingleLevel(s, script) && IsRun(s, schedule) ==> !Stuck(Run(s, schedule))
  }

  lemma {:induction false} OrderedRunIsSafe(s: System, script: seq<Op>, schedule: seq<nat>)
    requires Ordered([], script) && AmongSingleLevel(s, script) && IsRun(s, schedule)
    ensures !Stuck(Run(s, schedule))
  {
    forall i | 0 < i < |s.threads| ensures ThreadOrdered(s.threads[i]) {
      SingleLevelIsOrdered(s.threads[i].rest);
    }
    assert AllOrdered(s);
    InitialInv(s);
    hide Ordered, SingleLevel, Inv, AllOrdered, Stuck, CanStep, Step;
    RunKeepsInv(s, schedule);
    RunOrdered(s, schedule);
    NeverStuck(Run(s, schedule));
  }

  lemma {:induction false} OrderedIsSafe(script: seq<Op>)
    requires Ordered([], script)
    ensures SafeAmongSingleLevel(script)
  {
    hide Ordered, AmongSingleLevel, Stuck, Run, IsRun;
    forall s, schedule | AmongSingleLevel(s, script) && IsRun(s, schedule) ensures !Stuck(Run(s, schedule)) {
      OrderedRunIsSafe(s, script, schedule);
    }
  }

  /** A script outside the condition has companions and an interleaving that leave it stuck among them; one
      companion is enough without try-locks. */
  lemma DisorderIsUnsafe(script: seq<Op>) returns (s: System, schedule: seq<nat>)
    requires WellNested(script, 0) && !Ordered([], script)
    ensures AmongSingleLevel(s, script) && (Blocking(script) ==> |s.threads| <= 2)
    ensures IsRun(s, schedule) && Stuck(Run(s, schedule))
  {
    hide Ordered, WellNested, SingleLevel, Stuck, Run, IsRun;
    var t := Thread([], Idle, script);
    var cs;
    cs, schedule := Catch(t);
    s := Beside(t, cs);
  }

  /** Keeping to address order across nested levels is exactly what deadlock freedom asks of a script. */
  lemma OrderIsExactlySafety(script: seq<Op>)
    requires WellNested(script, 0)
    ensures SafeAmongSingleLevel(script) <==> Ordered([], script)
  {
    if Ordered([], script) {
      OrderedIsSafe(script);
    } else {
      var s, schedule := DisorderIsUnsafe(script);
    }
  }
}
