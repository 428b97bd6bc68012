/** Many threads locking through their queues (src/sync/sync_queue.c:31-42, 84-96, 185-210).

    A thread runs a script of lock, try-lock and unlock calls. Each call is broken into the steps another
    thread can come between: one lock taken or given back at a time, in the order of the queue, and
    in the opposite order when a try-lock that was refused gives back what it took. */
module LockProtocol {
  import opened Locks
  import opened QueueSpec

  /** `Lock(rs)` stands for adding the requests `rs` to an empty level and then locking it. A refused
      `TryLock` goes on with `otherwise` in place of the rest of the script. */
  datatype Op = Lock(requests: seq<Request>) | Unlock | TryLock(requests: seq<Request>, otherwise: seq<Op>)

  /** Where the thread is: between calls, or inside one with `next` entries of the level dealt with. In
      `Undoing`, `next` entries are still held. */
  datatype Phase =
    | Idle
    | Acquiring(plan: seq<Request>, next: nat)
    | Releasing(plan: seq<Request>, next: nat)
    | Trying(plan: seq<Request>, next: nat, otherwise: seq<Op>)
    | Undoing(plan: seq<Request>, next: nat)

  datatype Thread = Thread(levels: seq<seq<Request>>, phase: Phase, rest: seq<Op>)

  datatype System = System(threads: seq<Thread>, held: Holds)

  // ---- One thread ----

  predicate Done(t: Thread) {
    t.phase == Idle && t.rest == []
  }

  /** Unlock is only called with a locked level, and every level is unlocked in the end. */
  predicate WellNested(rest: seq<Op>, depth: nat)
    decreases rest
  {
    if rest == [] then depth == 0
    else
      match rest[0]
      case Lock(_) => WellNested(rest[1..], depth + 1)
      case Unlock => depth > 0 && WellNested(rest[1..], depth - 1)
      case TryLock(_, otherwise) => WellNested(rest[1..], depth + 1) && WellNested(otherwise, depth)
  }

  ghost predicate ThreadOk(t: Thread) {
    match t.phase
    case Idle => WellNested(t.rest, |t.levels|)
    case Acquiring(plan, next) => next <= |plan| && Ascending(plan) && WellNested(t.rest, |t.levels| + 1)
    case Releasing(plan, next) => next <= |plan| && WellNested(t.rest, |t.levels|)
    case Trying(plan, next, otherwise) =>
      next <= |plan| && Ascending(plan) && WellNested(t.rest, |t.levels| + 1) && WellNested(otherwise, |t.levels|)
    case Undoing(plan, next) => next <= |plan| && WellNested(t.rest, |t.levels|)
  }

  /** Is the thread about to make a lock call, and for which request? */
  predicate AtLockCall(t: Thread) {
    t.phase.Acquiring? && t.phase.next < |t.phase.plan|
  }

  function Wanted(t: Thread): Request
    requires AtLockCall(t)
  {
    t.phase.plan[t.phase.next]
  }

  function Taken(plan: seq<Request>, next: nat): Holds {
    if next <= |plan| then multiset(plan[..next]) else multiset(plan)
  }

  function Left(plan: seq<Request>, next: nat): Holds {
    if next <= |plan| then multiset(plan[next..]) else multiset{}
  }

  /** The locks a thread holds. */
  function HeldBy(t: Thread): Holds {
    match t.phase
    case Idle => Flatten(t.levels)
    case Acquiring(plan, next) => Flatten(t.levels) + Taken(plan, next)
    case Releasing(plan, next) => Flatten(t.levels) + Left(plan, next)
    case Trying(plan, next, _) => Flatten(t.levels) + Taken(plan, next)
    case Undoing(plan, next) => Flatten(t.levels) + Taken(plan, next)
  }

  /** The thread has a step to take; only an unlock without a locked level has no meaning. */
  predicate HasNext(t: Thread) {
    t.phase.Idle? ==> t.rest != [] && (t.rest[0].Unlock? ==> t.levels != [])
  }

  /** Is the thread about to try the next lock of its level, and is it free? */
  predicate TryWorks(t: Thread, held: Holds) {
    t.phase.Trying? && t.phase.next < |t.phase.plan| && CanLock(held, t.phase.plan[t.phase.next])
  }

  /** The thread's next step beside the locks `held`, taken as if its lock call returns. */
  function Next(t: Thread, held: Holds): Thread
    requires HasNext(t)
  {
    match t.phase
    case Idle =>
      (match t.rest[0]
       case Lock(rs) => Thread(t.levels, Acquiring(Plan(rs), 0), t.rest[1..])
       case Unlock =>
         var top := |t.levels| - 1;
         Thread(t.levels[..top], Releasing(t.levels[top], 0), t.rest[1..])
       case TryLock(rs, otherwise) => Thread(t.levels, Trying(Plan(rs), 0, otherwise), t.rest[1..]))
    case Acquiring(plan, next) =>
      if next < |plan| then t.(phase := Acquiring(plan, next + 1))
      else Thread(t.levels + [plan], Idle, t.rest)
    case Releasing(plan, next) =>
      if next < |plan| then t.(phase := Releasing(plan, next + 1))
      else t.(phase := Idle)
    case Trying(plan, next, otherwise) =>
      if TryWorks(t, held) then t.(phase := Trying(plan, next + 1, otherwise))
      else if next < |plan| then Thread(t.levels, Undoing(plan, next), otherwise)
      else Thread(t.levels + [plan], Idle, t.rest)
    case Undoing(plan, next) =>
      if next > 0 then t.(phase := Undoing(plan, next - 1))
      else t.(phase := Idle)
  }

  /** The locks after the thread's next step. */
  function HeldNext(t: Thread, held: Holds): Holds
  {
    if AtLockCall(t) then held + multiset{Wanted(t)}
    else if TryWorks(t, held) then held + multiset{t.phase.plan[t.phase.next]}
    else if t.phase.Releasing? && t.phase.next < |t.phase.plan| then held - multiset{t.phase.plan[t.phase.next]}
    else if t.phase.Undoing? && 0 < t.phase.next <= |t.phase.plan| then held - multiset{t.phase.plan[t.phase.next - 1]}
    else held
  }

  lemma NextOk(t: Thread, held: Holds)
    requires ThreadOk(t) && !Done(t)
    ensures ThreadOk(Next(t, held))
  {
    hide CanLock;
    if t.phase.Idle? && !t.rest[0].Unlock? {
      PlanAscending(t.rest[0].requests);
    }
  }

  lemma TakenStep(plan: seq<Request>, next: nat)
    requires next < |plan|
    ensures Taken(plan, next + 1) == Taken(plan, next) + multiset{plan[next]}
    ensures Left(plan, next) == Left(plan, next + 1) + multiset{plan[next]}
  {
    assert plan[..next + 1] == plan[..next] + [plan[next]];
    assert plan[next..] == [plan[next]] + plan[next + 1..];
  }

  lemma TakenEnds(plan: seq<Request>)
    ensures Taken(plan, 0) == multiset{} == Left(plan, |plan|)
    ensures Taken(plan, |plan|) == multiset(plan) == Left(plan, 0)
  {
    assert plan[..|plan|] == plan[0..] == plan;
  }

  lemma FlattenPush(levels: seq<seq<Request>>, plan: seq<Request>)
    ensures Flatten(levels + [plan]) == Flatten(levels) + multiset(plan)
  {
    assert (levels + [plan])[..|levels|] == levels;
  }

  lemma AddLast(a: Holds, b: Holds, c: Holds, d: Holds)
    ensures (a + (b + c)) + d == a + (b + (c + d))
  {
  }

  lemma DropLast(a: Holds, b: Holds, c: Holds, d: Holds)
    ensures (a + (b + (c + d))) - d == a + (b + c)
  {
  }

  lemma Replace(all: Holds, one: Holds, other: Holds, last: Holds)
    requires one <= all
    ensures one <= all + last
    ensures (all - one + other) + last == (all + last) - one + other
  {
  }

  /** A step changes the locks by exactly the change of what its thread holds. */
  ghost predicate Accounted(t: Thread, others: Holds)
    requires HasNext(t)
  {
    HeldNext(t, others + HeldBy(t)) == others + HeldBy(Next(t, others + HeldBy(t)))
  }

  lemma HoldsLocking(t: Thread, others: Holds)
    requires ThreadOk(t) && AtLockCall(t)
    ensures Accounted(t, others)
  {
    var plan, next := t.phase.plan, t.phase.next;
    TakenStep(plan, next);
    AddLast(others, Flatten(t.levels), Taken(plan, next), multiset{plan[next]});
  }

  lemma HoldsLocked(t: Thread, others: Holds)
    requires ThreadOk(t) && (t.phase.Acquiring? || t.phase.Trying?) && t.phase.next == |t.phase.plan|
    ensures Accounted(t, others)
  {
    TakenEnds(t.phase.plan);
    FlattenPush(t.levels, t.phase.plan);
  }

  lemma HoldsReleasing(t: Thread, others: Holds)
    requires ThreadOk(t) && t.phase.Releasing?
    ensures Accounted(t, others)
  {
    var plan, next, f := t.phase.plan, t.phase.next, Flatten(t.levels);
    if next < |plan| {
      TakenStep(plan, next);
      DropLast(others, f, Left(plan, next + 1), multiset{plan[next]});
      assert HeldBy(t) == f + (Left(plan, next + 1) + multiset{plan[next]});
    } else {
      TakenEnds(plan);
      assert f + multiset{} == f;
    }
  }

  lemma HoldsTaken(t: Thread, others: Holds)
    requires ThreadOk(t) && TryWorks(t, others + HeldBy(t))
    ensures Accounted(t, others)
  {
    var plan, next, held := t.phase.plan, t.phase.next, others + HeldBy(t);
    assert Next(t, held) == t.(phase := Trying(plan, next + 1, t.phase.otherwise));
    hide TryWorks, CanLock, Flatten, Taken;
    TakenStep(plan, next);
    AddLast(others, Flatten(t.levels), Taken(plan, next), multiset{plan[next]});
    assert HeldBy(t) == Flatten(t.levels) + Taken(plan, next);
    assert HeldBy(Next(t, held)) == Flatten(t.levels) + (Taken(plan, next) + multiset{plan[next]});
  }

  lemma HoldsRefused(t: Thread, others: Holds)
    requires ThreadOk(t) && t.phase.Trying? && t.phase.next < |t.phase.plan| && !TryWorks(t, others + HeldBy(t))
    ensures Accounted(t, others)
  {
    hide TryWorks, CanLock, Flatten, Taken;
  }

  lemma HoldsUndoing(t: Thread, others: Holds)
    requires ThreadOk(t) && t.phase.Undoing?
    ensures Accounted(t, others)
  {
    var plan, next, f := t.phase.plan, t.phase.next, Flatten(t.levels);
    if next > 0 {
      TakenStep(plan, next - 1);
      DropLast(others, f, Taken(plan, next - 1), multiset{plan[next - 1]});
      assert HeldBy(t) == f + (Taken(plan, next - 1) + multiset{plan[next - 1]});
    } else {
      TakenEnds(plan);
      assert f + multiset{} == f;
    }
  }

  lemma HoldsIdle(t: Thread, others: Holds)
    requires ThreadOk(t) && t.phase.Idle? && t.rest != []
    ensures Accounted(t, others)
  {
    if t.rest[0].Unlock? {
      TakenEnds(t.levels[|t.levels| - 1]);
    } else {
      TakenEnds(Plan(t.rest[0].requests));
      assert Flatten(t.levels) + multiset{} == Flatten(t.levels);
    }
  }

  lemma NextHolds(t: Thread, others: Holds)
    requires ThreadOk(t) && !Done(t)
    ensures HeldNext(t, others + HeldBy(t)) == others + HeldBy(Next(t, others + HeldBy(t)))
  {
    hide HeldBy, Next, HeldNext, TryWorks;
    match t.phase
    case Idle => HoldsIdle(t, others);
    case Acquiring(plan, next) => if next < |plan| { HoldsLocking(t, others); } else { HoldsLocked(t, others); }
    case Releasing(_, _) => HoldsReleasing(t, others);
    case Trying(plan, next, _) =>
      if next == |plan| {
        HoldsLocked(t, others);
      } else if TryWorks(t, others + HeldBy(t)) {
        HoldsTaken(t, others);
      } else {
        HoldsRefused(t, others);
      }
    case Undoing(_, _) => HoldsUndoing(t, others);
  }

  // ---- The system ----

  function Sum(hs: seq<Holds>): Holds {
    if hs == [] then multiset{} else Sum(hs[..|hs| - 1]) + hs[|hs| - 1]
  }

  lemma {:induction false} SumUpdate(hs: seq<Holds>, i: nat, h: Holds)
    requires i < |hs|
    ensures hs[i] <= Sum(hs)
    ensures Sum(hs[i := h]) == Sum(hs) - hs[i] + h
  {
    var n := |hs| - 1;
    if i < n {
      SumUpdate(hs[..n], i, h);
      assert hs[i := h][..n] == hs[..n][i := h];
      Replace(Sum(hs[..n]), hs[i], h, hs[n]);
    } else {
      assert hs[i := h][..n] == hs[..n];
    }
  }

  function Each(threads: seq<Thread>): (hs: seq<Holds>)
    ensures |hs| == |threads|
    ensures forall i :: 0 <= i < |hs| ==> hs[i] == HeldBy(threads[i])
  {
    seq(|threads|, i requires 0 <= i < |threads| => HeldBy(threads[i]))
  }

  /** What all the threads together hold. */
  function Total(threads: seq<Thread>): Holds {
    Sum(Each(threads))
  }

  ghost predicate Inv(s: System) {
    && (forall i :: 0 <= i < |s.threads| ==> ThreadOk(s.threads[i]))
    && s.held == Total(s.threads)
    && Exclusion(s.held)
  }

  /** Thread `i` is not finished, and if it is at a lock call, the call would return. */
  predicate CanStep(s: System, i: nat) {
    && i < |s.threads|
    && HasNext(s.threads[i])
    && (AtLockCall(s.threads[i]) ==> CanLock(s.held, Wanted(s.threads[i])))
  }

  function Step(s: System, i: nat): System
    requires i < |s.threads| && HasNext(s.threads[i])
  {
    System(s.threads[i := Next(s.threads[i], s.held)], HeldNext(s.threads[i], s.held))
  }

  predicate Fresh(t: Thread) {
    t.levels == [] && t.phase == Idle && WellNested(t.rest, 0)
  }

  /** All threads idle, empty-handed and with well nested scripts. */
  ghost predicate Initial(s: System) {
    && s.held == multiset{}
    && forall i :: 0 <= i < |s.threads| ==> Fresh(s.threads[i])
  }

  /** `schedule` names the thread that takes each step. */
  ghost predicate IsRun(s: System, schedule: seq<nat>)
    decreases schedule
  {
    schedule == [] || (CanStep(s, schedule[0]) && IsRun(Step(s, schedule[0]), schedule[1..]))
  }

  ghost function Run(s: System, schedule: seq<nat>): System
    requires IsRun(s, schedule)
    decreases schedule
  {
    if schedule == [] then s
    else Run(Step(s, schedule[0]), schedule[1..])
  }

  lemma TotalUpdate(ts: seq<Thread>, i: nat, t: Thread)
    requires i < |ts|
    ensures HeldBy(ts[i]) <= Total(ts)
    ensures Total(ts[i := t]) == Total(ts) - HeldBy(ts[i]) + HeldBy(t)
  {
    SumUpdate(Each(ts), i, HeldBy(t));
    assert Each(ts[i := t]) == Each(ts)[i := HeldBy(t)];
  }

  lemma {:induction false} SumMember(hs: seq<Holds>, r: Request) returns (i: nat)
    requires r in Sum(hs)
    ensures i < |hs| && r in hs[i]
  {
    var n := |hs| - 1;
    if r in hs[n] {
      i := n;
    } else {
      i := SumMember(hs[..n], r);
    }
  }

  lemma {:induction false} SumEmpty(hs: seq<Holds>)
    requires forall i :: 0 <= i < |hs| ==> hs[i] == multiset{}
    ensures Sum(hs) == multiset{}
  {
    if hs != [] {
      SumEmpty(hs[..|hs| - 1]);
    }
  }

  lemma StepHolds(s: System, i: nat)
    requires i < |s.threads| && ThreadOk(s.threads[i]) && !Done(s.threads[i])
    requires s.held == Total(s.threads)
    ensures Step(s, i).held == Total(Step(s, i).threads)
  {
    hide HeldNext, Next, HeldBy;
    var t := s.threads[i];
    TotalUpdate(s.threads, i, Next(t, s.held));
    NextHolds(t, s.held - HeldBy(t));
    assert s.held - HeldBy(t) + HeldBy(t) == s.held;
  }

  lemma StepExclusion(t: Thread, held: Holds)
    requires ThreadOk(t) && !Done(t) && Exclusion(held)
    requires AtLockCall(t) ==> CanLock(held, Wanted(t))
    ensures Exclusion(HeldNext(t, held))
  {
    if AtLockCall(t) {
      LockKeepsExclusion(held, Wanted(t));
    } else if TryWorks(t, held) {
      LockKeepsExclusion(held, t.phase.plan[t.phase.next]);
    }
  }

  /** Reader/writer exclusion, and the locks being exactly what the threads hold, are kept by every
      step of every interleaving. */
  lemma StepKeepsInv(s: System, i: nat)
    requires Inv(s) && CanStep(s, i)
    ensures Inv(Step(s, i))
  {
    hide Exclusion, HeldNext, Next, HeldBy, CanLock;
    StepHolds(s, i);
    NextOk(s.threads[i], s.held);
    StepExclusion(s.threads[i], s.held);
  }

  lemma InitialInv(s: System)
    requires Initial(s)
    ensures Inv(s)
  {
    SumEmpty(Each(s.threads));
  }

  lemma {:induction false} RunKeepsInv(s: System, schedule: seq<nat>)
    requires Inv(s) && IsRun(s, schedule)
    ensures Inv(Run(s, schedule))
    decreases schedule
  {
    if schedule != [] {
      StepKeepsInv(s, schedule[0]);
      RunKeepsInv(Step(s, schedule[0]), schedule[1..]);
    }
  }

  // ---- What a call takes and gives back ----

  /** How many of the steps are the thread's own. */
  function StepsOf(schedule: seq<nat>, i: nat): nat {
    if schedule == [] then 0 else (if schedule[0] == i then 1 else 0) + StepsOf(schedule[1..], i)
  }

  /** Between its steps a thread stays as it is, and its own are its next ones. */
  lemma StepOf(s: System, j: nat, i: nat)
    requires CanStep(s, j) && i < |s.threads|
    ensures |Step(s, j).threads| == |s.threads|
    ensures Step(s, j).threads[i] == if j == i then Next(s.threads[i], s.held) else s.threads[i]
  {
    hide Next, HeldNext, CanLock;
  }

  lemma {:induction false} Undisturbed(s: System, schedule: seq<nat>, i: nat)
    requires IsRun(s, schedule) && i < |s.threads| && StepsOf(schedule, i) == 0
    ensures |Run(s, schedule).threads| == |s.threads| && Run(s, schedule).threads[i] == s.threads[i]
    decreases schedule
  {
    hide Step, CanLock;
    if schedule != [] {
      StepOf(s, schedule[0], i);
      Undisturbed(Step(s, schedule[0]), schedule[1..], i);
    }
  }

  /** The thread has taken its level once it has had a step for each entry and one more. */
  lemma {:induction false} FinishesLevel(s: System, schedule: seq<nat>, i: nat)
    requires IsRun(s, schedule) && i < |s.threads| && s.threads[i].phase.Acquiring?
    requires var t := s.threads[i];
      t.phase.next <= |t.phase.plan| && StepsOf(schedule, i) == |t.phase.plan| - t.phase.next + 1
    ensures var t := s.threads[i];
      && |Run(s, schedule).threads| == |s.threads|
      && Run(s, schedule).threads[i] == Thread(t.levels + [t.phase.plan], Idle, t.rest)
    decreases schedule
  {
    hide Step, HeldNext, CanLock;
    var m := Step(s, schedule[0]);
    StepOf(s, schedule[0], i);
    if schedule[0] == i && s.threads[i].phase.next == |s.threads[i].phase.plan| {
      Undisturbed(m, schedule[1..], i);
    } else {
      FinishesLevel(m, schedule[1..], i);
    }
  }

  function Addresses(rs: seq<Request>): set<Address> {
    set r | r in rs :: r.addr
  }

  lemma {:induction false} AscendingCount(q: seq<Request>)
    requires Ascending(q)
    ensures |Addresses(q)| == |q|
  {
    if q == [] {
      assert Addresses(q) == {};
    } else {
      var front, last := q[..|q| - 1], q[|q| - 1];
      assert q == front + [last];
      AscendingCount(front);
      assert last.addr !in Addresses(front);
      assert Addresses(q) == Addresses(front) + {last.addr};
    }
  }

  lemma {:induction false} PlanCount(rs: seq<Request>)
    ensures |Plan(rs)| == |Addresses(rs)|
  {
    PlanExactly(rs);
    hide FirstAsked;
    AscendingCount(Plan(rs));
    forall a ensures a in Addresses(rs) <==> a in Addresses(Plan(rs)) {
      if a in Addresses(rs) {
        var r := SomeoneFirst(rs, a);
        assert r in Plan(rs);
      }
      forall x | x in Plan(rs) ensures x in rs {
        IsAsked(rs, x);
      }
    }
    assert Addresses(rs) == Addresses(Plan(rs));
  }

  /** However its steps are spread over a run, a lock call that has ended has added one level, which holds
      exactly what was asked for; the rest of the script follows. */
  lemma {:induction false} LockTakes(s: System, schedule: seq<nat>, i: nat, rs: seq<Request>)
    requires IsRun(s, schedule) && i < |s.threads| && s.threads[i].phase == Idle
    requires s.threads[i].rest != [] && s.threads[i].rest[0] == Lock(rs)
    requires StepsOf(schedule, i) == |Addresses(rs)| + 2
    ensures |Run(s, schedule).threads| == |s.threads|
    ensures var t, u := s.threads[i], Run(s, schedule).threads[i];
      && u.phase == Idle && u.rest == t.rest[1..] && |u.levels| == |t.levels| + 1 && u.levels[..|t.levels|] == t.levels
      && IsLevelOf(u.levels[|t.levels|], rs)
      && HeldBy(u) == HeldBy(t) + multiset(u.levels[|t.levels|])
    decreases schedule
  {
    hide Step, HeldNext, CanLock, Plan, Run;
    PlanCount(rs);
    PlanExactly(rs);
    StepOf(s, schedule[0], i);
    RunStarts(s, schedule);
    if schedule[0] == i {
      FinishesLevel(Step(s, i), schedule[1..], i);
      FlattenPush(s.threads[i].levels, Plan(rs));
    } else {
      LockTakes(Step(s, schedule[0]), schedule[1..], i, rs);
    }
  }

  /** The thread has given its level back once it has had a step for each entry and one more. */
  lemma {:induction false} FinishesRelease(s: System, schedule: seq<nat>, i: nat)
    requires IsRun(s, schedule) && i < |s.threads| && s.threads[i].phase.Releasing?
    requires var t := s.threads[i];
      t.phase.next <= |t.phase.plan| && StepsOf(schedule, i) == |t.phase.plan| - t.phase.next + 1
    ensures var t := s.threads[i];
      |Run(s, schedule).threads| == |s.threads| && Run(s, schedule).threads[i] == Thread(t.levels, Idle, t.rest)
    decreases schedule
  {
    hide Step, HeldNext, CanLock;
    var m := Step(s, schedule[0]);
    StepOf(s, schedule[0], i);
    if schedule[0] == i && s.threads[i].phase.next == |s.threads[i].phase.plan| {
      Undisturbed(m, schedule[1..], i);
    } else {
      FinishesRelease(m, schedule[1..], i);
    }
  }

  /** However its steps are spread over a run, an unlock that has ended has given back the level locked last
      and nothing else. */
  lemma {:induction false} UnlockGivesBack(s: System, schedule: seq<nat>, i: nat, last: seq<Request>)
    requires IsRun(s, schedule) && i < |s.threads| && s.threads[i].phase == Idle
    requires s.threads[i].rest != [] && s.threads[i].rest[0] == Unlock
    requires s.threads[i].levels != [] && last == s.threads[i].levels[|s.threads[i].levels| - 1]
    requires StepsOf(schedule, i) == |last| + 2
    ensures |Run(s, schedule).threads| == |s.threads|
    ensures var t, u := s.threads[i], Run(s, schedule).threads[i];
      && u.phase == Idle && u.rest == t.rest[1..] && u.levels + [last] == t.levels
      && HeldBy(t) == HeldBy(u) + multiset(last)
    decreases schedule
  {
    hide Step, HeldNext, CanLock, Run;
    StepOf(s, schedule[0], i);
    RunStarts(s, schedule);
    if schedule[0] == i {
      var t := s.threads[i];
      FinishesRelease(Step(s, i), schedule[1..], i);
      assert t.levels == t.levels[..|t.levels| - 1] + [last];
      FlattenPush(t.levels[..|t.levels| - 1], last);
    } else {
      UnlockGivesBack(Step(s, schedule[0]), schedule[1..], i, last);
    }
  }

  lemma RunStarts(s: System, schedule: seq<nat>)
    requires IsRun(s, schedule) && schedule != []
    ensures Run(s, schedule) == Run(Step(s, schedule[0]), schedule[1..])
  {
  }

  /** A thread that began to try the requests `rs` from the state `t`. */
  ghost predicate InsideTry(t: Thread, u: Thread, rs: seq<Request>, otherwise: seq<Op>)
    requires t.rest != []
  {
    && u.levels == t.levels
    && match u.phase
       case Trying(plan, next, other) =>
         next <= |plan| && IsLevelOf(plan, rs) && other == otherwise && u.rest == t.rest[1..]
       case Undoing(plan, next) => next <= |plan| && IsLevelOf(plan, rs) && u.rest == otherwise
       case _ => false
  }

  /** What a try-lock comes to: the level of what was asked for and the rest of the script, or nothing taken
      and the other script. */
  ghost predicate TryEnded(t: Thread, u: Thread, rs: seq<Request>, otherwise: seq<Op>)
    requires t.rest != []
  {
    && u.phase == Idle
    && ((u == Thread(t.levels, Idle, otherwise))
        || (|u.levels| == |t.levels| + 1 && u == Thread(t.levels + [u.levels[|t.levels|]], Idle, t.rest[1..])
            && IsLevelOf(u.levels[|t.levels|], rs)))
  }

  /** A try-lock begins, and every step of it leads on inside it or to one of its two ends. */
  lemma TryTakesAllOrNothing(t: Thread, u: Thread, rs: seq<Request>, otherwise: seq<Op>, held: Holds)
    requires t.phase == Idle && t.rest != [] && t.rest[0] == TryLock(rs, otherwise)
    requires u == t || InsideTry(t, u, rs, otherwise)
    ensures InsideTry(t, Next(u, held), rs, otherwise) || TryEnded(t, Next(u, held), rs, otherwise)
  {
    hide CanLock, Plan, IsLevelOf;
    LevelOfPlan(rs);
  }

  /** A try-lock turns back at an entry if and only if somebody has that lock and one of the two wants it alone. */
  lemma RefusedExactly(t: Thread, held: Holds)
    requires t.phase.Trying? && t.phase.next < |t.phase.plan|
    ensures var b := t.phase.plan[t.phase.next];
      Next(t, held).phase.Undoing? <==>
        exists x :: x in held && x.addr == b.addr && (x.mode == Exclusive || b.mode == Exclusive)
  {
    var b := t.phase.plan[t.phase.next];
    forall x | x in held && x.addr == b.addr ensures x == Request(b.addr, x.mode) {
    }
  }

  lemma LevelOfPlan(rs: seq<Request>)
    ensures IsLevelOf(Plan(rs), rs)
  {
    PlanExactly(rs);
  }
}
