/** Passing arguments to a C function (src/interpreter/stack.c:184-235, src/program/function_call_args.c:16-55,
    99-108). Behind the arguments pushed so far lies a tracker: a count word and one 16-bit offset per
    argument, four to a word. Every push moves the tracker up to make room. */
module CallArgs {
  import opened StackSpec
  import opened Words
  import opened Values

  // ---- Four 16-bit lanes in a word ----

  function Lane(w: nat, j: nat): nat {
    if j == 0 then w % 0x1_0000 else Lane(w / 0x1_0000, j - 1)
  }

  function WithLane(w: nat, j: nat, v: nat): nat
    requires v < 0x1_0000
  {
    if j == 0 then w - w % 0x1_0000 + v else w % 0x1_0000 + 0x1_0000 * WithLane(w / 0x1_0000, j - 1, v)
  }

  lemma {:induction false} WithLaneAt(w: nat, j: nat, v: nat, k: nat)
    requires v < 0x1_0000
    ensures Lane(WithLane(w, j, v), k) == if k == j then v else Lane(w, k)
  {
    if j == 0 {
      assert (w - w % 0x1_0000 + v) / 0x1_0000 == w / 0x1_0000;
      assert (w - w % 0x1_0000 + v) % 0x1_0000 == v;
    } else {
      var r := WithLane(w / 0x1_0000, j - 1, v);
      assert (w % 0x1_0000 + 0x1_0000 * r) / 0x1_0000 == r;
      assert (w % 0x1_0000 + 0x1_0000 * r) % 0x1_0000 == w % 0x1_0000;
      if k > 0 {
        WithLaneAt(w / 0x1_0000, j - 1, v, k - 1);
      }
    }
  }

  function Limit(n: nat): nat {
    if n == 0 then 1 else 0x1_0000 * Limit(n - 1)
  }

  lemma {:induction false} WithLaneFits(w: nat, j: nat, v: nat, n: nat)
    requires v < 0x1_0000 && j < n && w < Limit(n)
    ensures WithLane(w, j, v) < Limit(n)
  {
    if j > 0 {
      WithLaneFits(w / 0x1_0000, j - 1, v, n - 1);
    }
  }

  /** Storing one 16-bit value in a word. */
  function SetLane(w: Word, j: nat, v: nat): Word
    requires j < 4 && v < 0x1_0000
  {
    assert Limit(4) == 0x1_0000 * Limit(3) && Limit(3) == 0x1_0000 * Limit(2) && Limit(2) == 0x1_0000 * Limit(1);
    WithLaneFits(w, j, v, 4);
    WithLane(w, j, v)
  }

  // ---- Pushing and taking ----

  /** First slot, in the flat array, of the frame the call will get. */
  function ArgBase(s: Stack): nat {
    s.nextBase + RESERVED_SLOTS
  }

  /** Words the tracker needs beside its count for `n` offsets. */
  function OffsetWords(n: nat): nat {
    (n + 3) / 4
  }

  /** Room in the array for one more argument and the tracker behind it. */
  predicate CanPushArg(s: Stack, v: Value, offset: nat, count: nat) {
    && Sized(s) && ValueOk(v) && |v.words| > 0 && count < TWO_64 - 1
    && offset < 0x1_0000
    && ArgBase(s) + offset + |v.words| + 2 + count / 4 < STACK_SLOTS
  }

  /** The tracker carried up: its count word and the words that hold the offsets so far. */
  function MoveTracker(words: seq<Word>, from: nat, to: nat, count: nat): (r: seq<Word>)
    requires from + 2 + count / 4 <= |words| && to + 2 + count / 4 <= |words|
    ensures |r| == |words|
  {
    Overwrite(words, to, words[from..from + 2 + count / 4])
  }

  /** One more argument counted, and its offset stored in its lane. */
  function CountArg(words: seq<Word>, track: nat, count: nat, offset: nat): (r: seq<Word>)
    requires track + 2 + count / 4 <= |words| && count < TWO_64 - 1 && offset < 0x1_0000
    ensures |r| == |words| && forall i :: 0 <= i < track ==> r[i] == words[i]
  {
    var counted := words[track := count + 1];
    var last := track + 1 + count / 4;
    counted[last := SetLane(counted[last], count % 4, offset)]
  }

  /** Arguments were pushed before if the offset is not 0; then there is a tracker to carry up. */
  function MakeRoom(words: seq<Word>, from: nat, to: nat, count: nat, offset: nat): (r: seq<Word>)
    requires from + 2 + count / 4 <= |words| && to + 2 + count / 4 <= |words|
    ensures |r| == |words| && forall i :: 0 <= i < to ==> r[i] == words[i]
  {
    if offset > 0 then MoveTracker(words, from, to, count) else words
  }

  /** Memory after a push at `at`: tracker moved up, value stored, tracker brought up to date. */
  function PushedWords(words: seq<Word>, at: nat, v: Value, offset: nat, count: nat): seq<Word>
    requires ValueOk(v) && count < TWO_64 - 1 && offset < 0x1_0000 && at + |v.words| + 2 + count / 4 < |words|
  {
    var track := at + |v.words|;
    var moved := MakeRoom(words, at, track, count, offset);
    CountArg(StoreValue(moved, at, v), track, count, offset)
  }

  /** `cubs_interpreter_push_c_function_arg`, with `argTrackOffset` equal to `offset` as its caller passes it. */
  function PushCArg(s: Stack, v: Value, offset: nat, count: nat): Stack
    requires CanPushArg(s, v, offset, count)
  {
    var at := ArgBase(s) + offset;
    s.(words := PushedWords(s.words, at, v, offset, count),
       contexts := PutContext(s.contexts, at, v.context, false))
  }

  // ---- A whole argument list ----

  /** The offset of argument `i` of the call: behind the slots of those before it. */
  function OffsetOf(vs: seq<Value>, i: nat): nat
    requires i <= |vs|
  {
    if i == 0 then 0 else OffsetOf(vs, i - 1) + |vs[i - 1].words|
  }

  ghost predicate ValuesOk(vs: seq<Value>) {
    forall i :: 0 <= i < |vs| ==> ValueOk(vs[i]) && |vs[i].words| > 0
  }

  /** The value is in the slots at `at` and owned there. */
  ghost predicate ArgAt(s: Stack, at: nat, v: Value) {
    && ValueOk(v) && |v.words| > 0 && at + |v.words| <= |s.words| == |s.contexts|
    && CopyOut(v.context, s.words[at..at + |v.words|]) == v.words
    && s.contexts[at] == Typed(v.context, false)
  }

  /** The tracker at `track` holds the count and the offsets of the first `n` arguments. */
  ghost predicate TrackerAt(words: seq<Word>, track: nat, vs: seq<Value>, n: nat)
    requires n <= |vs|
  {
    && track + 1 + OffsetWords(n) <= |words|
    && words[track] == n
    && forall i :: 0 <= i < n ==> Lane(words[track + 1 + i / 4], i % 4) == OffsetOf(vs, i)
  }

  ghost predicate ArgsAt(s: Stack, base: nat, vs: seq<Value>, n: nat, taken: set<nat>)
    requires n <= |vs|
  {
    forall i :: 0 <= i < n && i !in taken ==> ArgAt(s, base + OffsetOf(vs, i), vs[i])
  }

  /** The first `n` of `vs` lie at `base` with their tracker behind them; those in `taken` are gone again. */
  ghost predicate Holding(s: Stack, base: nat, vs: seq<Value>, n: nat, taken: set<nat>) {
    && Sized(s) && ValuesOk(vs) && n <= |vs| && base + OffsetOf(vs, n) <= STACK_SLOTS
    && ArgsAt(s, base, vs, n, taken)
    && (n > 0 ==> TrackerAt(s.words, base + OffsetOf(vs, n), vs, n))
  }

  lemma {:induction false} OffsetsGrow(vs: seq<Value>, i: nat, j: nat)
    requires i < j <= |vs| && ValuesOk(vs)
    ensures OffsetOf(vs, i) + |vs[i].words| <= OffsetOf(vs, j)
    ensures OffsetOf(vs, j) > 0
    decreases j
  {
    if i < j - 1 {
      OffsetsGrow(vs, i, j - 1);
    }
  }

  /** The tracker after a move still reads the same. */
  lemma {:induction false} MovedTracker(words: seq<Word>, from: nat, to: nat, vs: seq<Value>, n: nat)
    requires n <= |vs| && from + 2 + n / 4 <= |words| && to + 2 + n / 4 <= |words|
    requires TrackerAt(words, from, vs, n)
    ensures TrackerAt(MoveTracker(words, from, to, n), to, vs, n)
  {
    var moved := MoveTracker(words, from, to, n);
    forall i | 0 <= i < n ensures moved[to + 1 + i / 4] == words[from + 1 + i / 4] {
      assert moved[to + 1 + i / 4] == words[from..from + 2 + n / 4][1 + i / 4];
    }
    assert moved[to] == words[from..from + 2 + n / 4][0];
  }

  lemma {:induction false} LaneAfterCount(words: seq<Word>, track: nat, n: nat, offset: nat, i: nat)
    requires track + 2 + n / 4 <= |words| && n < TWO_64 - 1 && offset < 0x1_0000 && i <= n
    ensures var r := CountArg(words, track, n, offset);
            Lane(r[track + 1 + i / 4], i % 4) == if i == n then offset else Lane(words[track + 1 + i / 4], i % 4)
  {
    WithLaneAt(words[track + 1 + n / 4], n % 4, offset, i % 4);
    if i < n && i / 4 == n / 4 {
      assert i % 4 != n % 4;
    }
  }

  /** Counting one more and storing its offset completes the tracker. */
  lemma {:induction false} ExtendTracker(words: seq<Word>, track: nat, vs: seq<Value>, n: nat)
    requires n < |vs| && n < TWO_64 - 1 && track + 2 + n / 4 <= |words| && OffsetOf(vs, n) < 0x1_0000
    requires n > 0 ==> TrackerAt(words, track, vs, n)
    ensures TrackerAt(CountArg(words, track, n, OffsetOf(vs, n)), track, vs, n + 1)
  {
    var r := CountArg(words, track, n, OffsetOf(vs, n));
    forall i | 0 <= i < n + 1 ensures Lane(r[track + 1 + i / 4], i % 4) == OffsetOf(vs, i) {
      LaneAfterCount(words, track, n, OffsetOf(vs, n), i);
    }
  }

  lemma {:induction false} ArgUnchanged(s: Stack, r: Stack, at: nat, v: Value)
    requires ArgAt(s, at, v) && |r.words| == |r.contexts| == |s.words|
    requires forall i :: at <= i < at + |v.words| ==> r.words[i] == s.words[i]
    requires r.contexts[at] == s.contexts[at]
    ensures ArgAt(r, at, v)
  {
    assert r.words[at..at + |v.words|] == s.words[at..at + |v.words|];
  }

  lemma {:induction false} TrackerUnchanged(v: seq<Word>, w: seq<Word>, track: nat, vs: seq<Value>, n: nat)
    requires n <= |vs| && TrackerAt(v, track, vs, n) && |v| == |w| && forall i :: track <= i < |v| ==> v[i] == w[i]
    ensures TrackerAt(w, track, vs, n)
  {
  }

  lemma {:induction false} StoredBelow(moved: seq<Word>, at: nat, v: Value, track: nat, count: nat, offset: nat)
    requires ValueOk(v) && count < TWO_64 - 1 && offset < 0x1_0000
    requires track == at + |v.words| && track + 2 + count / 4 < |moved|
    ensures var r := CountArg(StoreValue(moved, at, v), track, count, offset);
            && (forall i :: 0 <= i < at ==> r[i] == moved[i])
            && CopyOut(v.context, r[at..at + |v.words|]) == v.words
  {
    StoredValue(moved, at, v);
    hide StoreValue, CountArg, CopyOut, ValueOk;
    assert CountArg(StoreValue(moved, at, v), track, count, offset)[at..track] == StoreValue(moved, at, v)[at..track];
  }

  /** Below the argument nothing changes, and the argument can be read back. */
  lemma {:induction false} PushedBelow(words: seq<Word>, at: nat, v: Value, offset: nat, count: nat)
    requires ValueOk(v) && count < TWO_64 - 1 && offset < 0x1_0000 && at + |v.words| + 2 + count / 4 < |words|
    ensures var r := PushedWords(words, at, v, offset, count);
            && |r| == |words| && (forall i :: 0 <= i < at ==> r[i] == words[i])
            && CopyOut(v.context, r[at..at + |v.words|]) == v.words
  {
    hide StoreValue, CountArg, CopyOut, ValueOk, MakeRoom;
    var track := at + |v.words|;
    StoredBelow(MakeRoom(words, at, track, count, offset), at, v, track, count, offset);
  }

  lemma {:induction false} TrackerAfterStore(moved: seq<Word>, at: nat, track: nat, vs: seq<Value>, n: nat)
    requires n < |vs| && ValuesOk(vs) && n < TWO_64 - 1 && OffsetOf(vs, n) < 0x1_0000
    requires track == at + |vs[n].words| && track + 2 + n / 4 < |moved|
    requires n > 0 ==> TrackerAt(moved, track, vs, n)
    ensures TrackerAt(CountArg(StoreValue(moved, at, vs[n]), track, n, OffsetOf(vs, n)), track, vs, n + 1)
  {
    var stored := StoreValue(moved, at, vs[n]);
    StoredValue(moved, at, vs[n]);
    hide StoreValue, OffsetOf;
    if n > 0 {
      TrackerUnchanged(moved, stored, track, vs, n);
    }
    ExtendTracker(stored, track, vs, n);
  }

  lemma {:induction false} RoomKeepsTracker(words: seq<Word>, at: nat, track: nat, vs: seq<Value>, n: nat)
    requires 0 < n <= |vs| && ValuesOk(vs) && at + 2 + n / 4 <= |words| && track + 2 + n / 4 <= |words|
    requires TrackerAt(words, at, vs, n)
    ensures TrackerAt(MakeRoom(words, at, track, n, OffsetOf(vs, n)), track, vs, n)
  {
    hide OffsetOf, TrackerAt;
    OffsetsGrow(vs, 0, n);
    MovedTracker(words, at, track, vs, n);
  }

  lemma {:induction false} PushedTracker(words: seq<Word>, at: nat, track: nat, vs: seq<Value>, n: nat)
    requires n < |vs| && ValuesOk(vs) && n < TWO_64 - 1 && OffsetOf(vs, n) < 0x1_0000
    requires track == at + |vs[n].words| && track + 2 + n / 4 < |words|
    requires n > 0 ==> TrackerAt(words, at, vs, n)
    ensures TrackerAt(PushedWords(words, at, vs[n], OffsetOf(vs, n), n), track, vs, n + 1)
  {
    hide OffsetOf, StoreValue, CountArg, TrackerAt, ValueOk, MakeRoom;
    if n > 0 {
      RoomKeepsTracker(words, at, track, vs, n);
    }
    TrackerAfterStore(MakeRoom(words, at, track, n, OffsetOf(vs, n)), at, track, vs, n);
  }

  lemma {:induction false} ArgsExtend(s: Stack, r: Stack, base: nat, vs: seq<Value>, n: nat)
    requires Sized(s) && Sized(r) && ValuesOk(vs) && n < |vs| && ArgsAt(s, base, vs, n, {})
    requires base + OffsetOf(vs, n) <= STACK_SLOTS
    requires forall i :: 0 <= i < base + OffsetOf(vs, n) ==> r.words[i] == s.words[i] && r.contexts[i] == s.contexts[i]
    requires ArgAt(r, base + OffsetOf(vs, n), vs[n])
    ensures ArgsAt(r, base, vs, n + 1, {})
  {
    hide OffsetOf, CopyOut, SlotsOf, ValueOk;
    forall i | 0 <= i < n ensures ArgAt(r, base + OffsetOf(vs, i), vs[i]) {
      OffsetsGrow(vs, i, n);
      assert i !in {} && ArgAt(s, base + OffsetOf(vs, i), vs[i]);
      ArgUnchanged(s, r, base + OffsetOf(vs, i), vs[i]);
    }
  }

  lemma {:induction false} PushedArg(s: Stack, at: nat, v: Value, offset: nat, count: nat)
    requires CanPushArg(s, v, offset, count) && at == ArgBase(s) + offset
    ensures var r := PushCArg(s, v, offset, count);
            && Sized(r) && r.nextBase == s.nextBase && r.frame == s.frame
            && ArgAt(r, at, v)
            && forall i :: 0 <= i < at ==> r.words[i] == s.words[i] && r.contexts[i] == s.contexts[i]
  {
    hide PushedWords;
    PushedBelow(s.words, at, v, offset, count);
  }

  /** The arguments with one more. */
  lemma {:induction false} PushedArgs(s: Stack, vs: seq<Value>, n: nat)
    requires n < |vs| && Holding(s, ArgBase(s), vs, n, {}) && CanPushArg(s, vs[n], OffsetOf(vs, n), n)
    ensures var r := PushCArg(s, vs[n], OffsetOf(vs, n), n);
            && Sized(r) && r.nextBase == s.nextBase && r.frame == s.frame && ArgsAt(r, ArgBase(s), vs, n + 1, {})
  {
    hide OffsetOf, ArgAt, TrackerAt, ArgsAt, PushCArg, ValueOk;
    PushedArg(s, ArgBase(s) + OffsetOf(vs, n), vs[n], OffsetOf(vs, n), n);
    ArgsExtend(s, PushCArg(s, vs[n], OffsetOf(vs, n), n), ArgBase(s), vs, n);
  }

  /** No argument pushed earlier is overwritten, and the tracker knows one more. */
  lemma {:induction false} PushKeepsAll(s: Stack, vs: seq<Value>, n: nat)
    requires n < |vs| && Holding(s, ArgBase(s), vs, n, {}) && CanPushArg(s, vs[n], OffsetOf(vs, n), n)
    ensures var r := PushCArg(s, vs[n], OffsetOf(vs, n), n);
            r.nextBase == s.nextBase && r.frame == s.frame && Holding(r, ArgBase(s), vs, n + 1, {})
  {
    var off := OffsetOf(vs, n);
    assert OffsetOf(vs, n + 1) == off + |vs[n].words|;
    hide OffsetOf, ArgAt, TrackerAt, ArgsAt, PushedWords, PutContext, ValueOk;
    PushedArgs(s, vs, n);
    PushedTracker(s.words, ArgBase(s) + off, ArgBase(s) + OffsetOf(vs, n + 1), vs, n);
  }

  // ---- The call, and taking the arguments ----

  /** Pushing a list of arguments one by one, as the caller does. */
  ghost predicate CanPushAll(s: Stack, vs: seq<Value>, n: nat)
    requires n <= |vs|
    decreases |vs| - n
  {
    n == |vs| ||
    (CanPushArg(s, vs[n], OffsetOf(vs, n), n) && CanPushAll(PushCArg(s, vs[n], OffsetOf(vs, n), n), vs, n + 1))
  }

  ghost function PushAll(s: Stack, vs: seq<Value>, n: nat): Stack
    requires n <= |vs| && CanPushAll(s, vs, n)
    decreases |vs| - n
  {
    if n == |vs| then s else PushAll(PushCArg(s, vs[n], OffsetOf(vs, n), n), vs, n + 1)
  }

  lemma {:induction false} PushAllHolds(s: Stack, vs: seq<Value>, n: nat)
    requires n <= |vs| && CanPushAll(s, vs, n) && Holding(s, ArgBase(s), vs, n, {})
    ensures var r := PushAll(s, vs, n);
            r.nextBase == s.nextBase && r.frame == s.frame && Holding(r, ArgBase(s), vs, |vs|, {})
    decreases |vs| - n
  {
    hide Holding, CanPushArg, PushCArg, OffsetOf;
    if n < |vs| {
      PushKeepsAll(s, vs, n);
      PushAllHolds(PushCArg(s, vs[n], OffsetOf(vs, n), n), vs, n + 1);
    }
  }

  /** Where argument `i` lies in the frame, from the tracker behind the frame's slots. */
  function Position(s: Stack, offsetForArgs: nat, i: nat): nat
    requires Sized(s) && SlotIndex(s, offsetForArgs) + 1 + i / 4 < STACK_SLOTS
  {
    Lane(s.words[SlotIndex(s, offsetForArgs) + 1 + i / 4], i % 4)
  }

  /** The index is one of the arguments', the tracker is inside the array, and leads to a slot of the frame with
      a type whose value fits. */
  predicate CanTake(s: Stack, argCount: nat, offsetForArgs: nat, i: nat) {
    && argCount > i
    && Sized(s) && SlotIndex(s, offsetForArgs) + 1 + i / 4 < STACK_SLOTS
    && Position(s, offsetForArgs, i) < s.frame.length
    && var at := SlotIndex(s, Position(s, offsetForArgs, i));
       at < STACK_SLOTS && s.contexts[at].Typed? && at + SlotsOf(s.contexts[at].context) <= STACK_SLOTS
  }

  /** `cubs_function_take_arg`: the value is copied out and its context cleared. */
  function TakenValue(s: Stack, argCount: nat, offsetForArgs: nat, i: nat): (r: (Stack, Value))
    requires CanTake(s, argCount, offsetForArgs, i)
  {
    var position := Position(s, offsetForArgs, i);
    var at := SlotIndex(s, position);
    var c := s.contexts[at].context;
    (SetNullContext(s, position), Value(c, CopyOut(c, s.words[at..at + SlotsOf(c)])))
  }

  /** The tracker leads to the argument. */
  lemma {:induction false} FindArg(s: Stack, vs: seq<Value>, taken: set<nat>, i: nat)
    requires Holding(s, SlotIndex(s, 0), vs, |vs|, taken) && i < |vs| && i !in taken
    ensures SlotIndex(s, OffsetOf(vs, |vs|)) + 1 + i / 4 < STACK_SLOTS
    ensures Position(s, OffsetOf(vs, |vs|), i) == OffsetOf(vs, i)
    ensures ArgAt(s, SlotIndex(s, OffsetOf(vs, i)), vs[i])
  {
    hide CopyOut, OffsetOf, ArgAt;
  }

  /** Taking it copies out the value and clears its context. */
  lemma {:induction false} TakeFound(s: Stack, argCount: nat, offsetForArgs: nat, i: nat, v: Value)
    requires i < argCount && Sized(s) && SlotIndex(s, offsetForArgs) + 1 + i / 4 < STACK_SLOTS
    requires Position(s, offsetForArgs, i) < s.frame.length
    requires ArgAt(s, SlotIndex(s, Position(s, offsetForArgs, i)), v)
    ensures CanTake(s, argCount, offsetForArgs, i)
    ensures var r := TakenValue(s, argCount, offsetForArgs, i); var at := SlotIndex(s, Position(s, offsetForArgs, i));
            && r.1 == v && r.0.frame == s.frame && r.0.nextBase == s.nextBase && r.0.words == s.words
            && r.0.contexts == s.contexts[at := NoContext]
  {
    hide CopyOut, Lane, Position;
  }

  lemma {:induction false} TakeKeepsOthers(s: Stack, r: Stack, base: nat, vs: seq<Value>, taken: set<nat>, i: nat)
    requires Holding(s, base, vs, |vs|, taken) && i < |vs| && base + OffsetOf(vs, i) < STACK_SLOTS
    requires r.words == s.words && r.contexts == s.contexts[base + OffsetOf(vs, i) := NoContext]
    requires r.nextBase == s.nextBase
    ensures Holding(r, base, vs, |vs|, taken + {i})
  {
    hide OffsetOf, CopyOut, SlotsOf;
    forall j | 0 <= j < |vs| && j !in taken + {i} ensures ArgAt(r, base + OffsetOf(vs, j), vs[j]) {
      if j < i { OffsetsGrow(vs, j, i); } else { OffsetsGrow(vs, i, j); }
      assert ArgAt(s, base + OffsetOf(vs, j), vs[j]);
      ArgUnchanged(s, r, base + OffsetOf(vs, j), vs[j]);
    }
  }

  /** Taking an argument that is still there gives back what was pushed, and leaves the others. */
  lemma {:induction false} TakeGivesPushed(s: Stack, vs: seq<Value>, taken: set<nat>, i: nat)
    requires Holding(s, SlotIndex(s, 0), vs, |vs|, taken) && i < |vs| && i !in taken
    requires OffsetOf(vs, |vs|) <= s.frame.length
    ensures CanTake(s, |vs|, OffsetOf(vs, |vs|), i)
    ensures var r := TakenValue(s, |vs|, OffsetOf(vs, |vs|), i);
            && r.1 == vs[i] && r.0.frame == s.frame
            && Holding(r.0, SlotIndex(s, 0), vs, |vs|, taken + {i})
            && s.frame.base + 4 + OffsetOf(vs, i) < |s.contexts|
            && r.0.words == s.words && r.0.contexts == s.contexts[s.frame.base + 4 + OffsetOf(vs, i) := NoContext]
  {
    FindArg(s, vs, taken, i);
    OffsetsGrow(vs, i, |vs|);
    TakeFound(s, |vs|, OffsetOf(vs, |vs|), i, vs[i]);
    hide OffsetOf, ArgAt, ArgsAt, TrackerAt, TakenValue, CanTake, Position;
    var r := TakenValue(s, |vs|, OffsetOf(vs, |vs|), i).0;
    TakeKeepsOthers(s, r, SlotIndex(s, 0), vs, taken, i);
  }

  /** The call itself pushes a frame of exactly the arguments' slots; its saved words lie below them. */
  lemma {:induction false} CallKeepsArgs(s: Stack, vs: seq<Value>, rv: Word, rc: Word)
    requires Holding(s, ArgBase(s), vs, |vs|, {}) && CanPush(s, OffsetOf(vs, |vs|))
    ensures var r := PushFrame(s, OffsetOf(vs, |vs|), rv, rc);
            && SlotIndex(r, 0) == ArgBase(s) && r.frame.length == OffsetOf(vs, |vs|)
            && Holding(r, SlotIndex(r, 0), vs, |vs|, {})
  {
    hide OffsetOf, CopyOut, ValueOk, SlotsOf, Overwrite;
    var r := PushFrame(s, OffsetOf(vs, |vs|), rv, rc);
    forall i | 0 <= i < |vs| ensures ArgAt(r, ArgBase(s) + OffsetOf(vs, i), vs[i]) {
      OffsetsGrow(vs, i, |vs|);
      assert i !in {} && ArgAt(s, ArgBase(s) + OffsetOf(vs, i), vs[i]);
      ArgUnchanged(s, r, ArgBase(s) + OffsetOf(vs, i), vs[i]);
    }
    if vs != [] {
      TrackerUnchanged(s.words, r.words, ArgBase(s) + OffsetOf(vs, |vs|), vs, |vs|);
    }
  }

  /** Taking the arguments with the given indices one after the other. */
  ghost predicate CanTakeAll(s: Stack, argCount: nat, offsetForArgs: nat, order: seq<nat>)
    decreases order
  {
    order == [] ||
    (&& CanTake(s, argCount, offsetForArgs, order[0])
     && CanTakeAll(TakenValue(s, argCount, offsetForArgs, order[0]).0, argCount, offsetForArgs, order[1..]))
  }

  ghost function TakeAll(s: Stack, argCount: nat, offsetForArgs: nat, order: seq<nat>): (r: seq<Value>)
    requires CanTakeAll(s, argCount, offsetForArgs, order)
    ensures |r| == |order|
    decreases order
  {
    if order == [] then []
    else [TakenValue(s, argCount, offsetForArgs, order[0]).1]
         + TakeAll(TakenValue(s, argCount, offsetForArgs, order[0]).0, argCount, offsetForArgs, order[1..])
  }

  lemma {:induction false} TakesGivePushed(s: Stack, vs: seq<Value>, taken: set<nat>, order: seq<nat>)
    requires Holding(s, SlotIndex(s, 0), vs, |vs|, taken) && OffsetOf(vs, |vs|) <= s.frame.length
    requires forall k :: 0 <= k < |order| ==> order[k] < |vs| && order[k] !in taken
    requires forall k, l :: 0 <= k < l < |order| ==> order[k] != order[l]
    ensures CanTakeAll(s, |vs|, OffsetOf(vs, |vs|), order)
    ensures forall k :: 0 <= k < |order| ==> TakeAll(s, |vs|, OffsetOf(vs, |vs|), order)[k] == vs[order[k]]
    decreases order
  {
    hide OffsetOf, ArgAt, TrackerAt, ValuesOk, CanTake, TakenValue;
    if order != [] {
      TakeGivesPushed(s, vs, taken, order[0]);
      var r := TakenValue(s, |vs|, OffsetOf(vs, |vs|), order[0]).0;
      TakesGivePushed(r, vs, taken + {order[0]}, order[1..]);
    }
  }

  lemma {:induction false} NoneHeld(s: Stack, vs: seq<Value>)
    requires Sized(s) && ValuesOk(vs) && ArgBase(s) <= STACK_SLOTS
    ensures Holding(s, ArgBase(s), vs, 0, {})
  {
    hide ValueOk, ArgAt;
  }

  /** The round trip: push any values of non-zero size, call, and take any of them in any order; each
      comes back as it was pushed. */
  lemma {:induction false} ArgumentRoundTrip(s: Stack, vs: seq<Value>, rv: Word, rc: Word, order: seq<nat>)
    requires Sized(s) && ValuesOk(vs) && CanPushAll(s, vs, 0) && ArgBase(s) <= STACK_SLOTS
    requires CanPush(PushAll(s, vs, 0), OffsetOf(vs, |vs|))
    requires forall k :: 0 <= k < |order| ==> order[k] < |vs|
    requires forall k, l :: 0 <= k < l < |order| ==> order[k] != order[l]
    ensures var callee := PushFrame(PushAll(s, vs, 0), OffsetOf(vs, |vs|), rv, rc);
            && CanTakeAll(callee, |vs|, OffsetOf(vs, |vs|), order)
            && forall k :: 0 <= k < |order| ==> TakeAll(callee, |vs|, OffsetOf(vs, |vs|), order)[k] == vs[order[k]]
  {
    hide OffsetOf, ArgAt, CanPushAll, PushAll, CanTakeAll, TakeAll, PushFrame, ValueOk;
    NoneHeld(s, vs);
    PushAllHolds(s, vs, 0);
    CallKeepsArgs(PushAll(s, vs, 0), vs, rv, rc);
    TakesGivePushed(PushFrame(PushAll(s, vs, 0), OffsetOf(vs, |vs|), rv, rc), vs, {}, order);
  }
}
