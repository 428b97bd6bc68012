/** Whole runs of the interpreter's stack (src/interpreter/stack.c, src/interpreter/interpreter.c:145-163):
    whatever calls, returns and slot writes happen, the flat array stays a faithful stack of frame
    records, and nothing above the current frame owns a value except the arguments of the next call. */
module StackRuns {
  import opened StackSpec
  import opened Words
  import opened Values

  /** The stack, the slots used by arguments already pushed for the next call, and where those arguments
      start. */
  datatype Machine = Machine(s: Stack, pending: nat, args: set<nat>)

  datatype Op =
    | PushArg(value: Value)
    | Call(frameLength: nat, returnValueDst: Word, returnContextDst: Word)
    | WriteSlot(offset: nat, word: Word)
    | WriteContext(offset: nat, context: TypeContext, isReference: bool)
    | ClearContext(offset: nat)
    | Return
    | ReturnValue(src: nat, dst: nat)

  /** A value copied to the place where the next frame will have slot `offset`. */
  function PutArg(s: Stack, offset: nat, v: Value): Stack
    requires Sized(s) && s.nextBase + RESERVED_SLOTS + offset + |v.words| <= STACK_SLOTS
    requires ValueOk(v) && |v.words| > 0
  {
    var at := s.nextBase + RESERVED_SLOTS + offset;
    s.(words := StoreValue(s.words, at, v), contexts := PutContext(s.contexts, at, v.context, false))
  }

  /** What an operation needs to stay inside the array and to leave alone what is not its own. The code checks
      part of it (`ContextChecks`, `CanGiveBack`); the rest is left to its callers. */
  ghost predicate Allowed(m: Machine, op: Op)
    requires Ok(m.s)
  {
    var s := m.s;
    match op
    case PushArg(v) => ValueOk(v) && |v.words| > 0 && s.nextBase + RESERVED_SLOTS + m.pending + |v.words| <= STACK_SLOTS
    case Call(n, _, _) => CanPush(s, n) && m.pending <= n
    case WriteSlot(i, _) => s.nextBase != 0 && i < s.frame.length
    case WriteContext(i, c, _) => s.nextBase != 0 && ContextChecks(s, i, c) && SparesArgs(m, i, c)
    case ClearContext(i) => s.nextBase != 0 && i < s.frame.length
    case Return => s.nextBase != 0 && m.pending == 0
    case ReturnValue(src, dst) => m.pending == 0 && CanGiveBack(s, src, dst) && FitsCaller(s, src, dst)
  }

  /** The code compares a slot and a size in bytes with the frame's size in bytes, so that the slots it clears
      may lie above the frame. */
  predicate ContextChecks(s: Stack, i: nat, c: TypeContext) {
    i < s.frame.length && i + c.sizeOfType < (s.frame.length + 1) * 8
  }

  /** The slots that are cleared are in the array, and none is the first of an argument pushed already. */
  ghost predicate SparesArgs(m: Machine, i: nat, c: TypeContext) {
    && SlotIndex(m.s, i) + ClearedAfter(c) < STACK_SLOTS
    && forall o :: o in m.args ==> SlotIndex(m.s, i) + ClearedAfter(c) < m.s.nextBase + RESERVED_SLOTS + o
  }

  /** The code checks that both slots are in their frames and that the source has a type. */
  ghost predicate CanGiveBack(s: Stack, src: nat, dst: nat)
    requires Ok(s)
  {
    && s.nextBase != 0 && s.frame.base > 0
    && src < s.frame.length && s.contexts[SlotIndex(s, src)].Typed?
    && dst < SavedFrame(s.words, s.frame.base).length
  }

  function ReturnType(s: Stack, src: nat): TypeContext
    requires Sized(s) && SlotIndex(s, src) < STACK_SLOTS && s.contexts[SlotIndex(s, src)].Typed?
  {
    s.contexts[SlotIndex(s, src)].context
  }

  /** The code does not check that all words of the value are in the callee's frame and fit the caller's. */
  ghost predicate FitsCaller(s: Stack, src: nat, dst: nat)
    requires Ok(s) && CanGiveBack(s, src, dst)
  {
    && src + SlotsOf(ReturnType(s, src)) <= s.frame.length
    && dst + SlotsOf(ReturnType(s, src)) <= SavedFrame(s.words, s.frame.base).length
  }

  /** Unwinding and popping, which is how every frame ends. */
  function EndFrame(s: Stack): Stack
    requires Ok(s) && s.nextBase != 0
  {
    PopRefines(s);
    PopFrame(Unwind(s))
  }

  /** The value's bytes are copied to the caller's slot, and its type is stored there without the tag bit
      and without clearing. */
  function GiveBack(s: Stack, src: nat, dst: nat): Stack
    requires Ok(s) && CanGiveBack(s, src, dst) && FitsCaller(s, src, dst)
  {
    var caller, c := SavedFrame(s.words, s.frame.base), ReturnType(s, src);
    var at := caller.base + RESERVED_SLOTS + dst;
    s.(words := StoreValue(s.words, at, LoadValue(s.words, SlotIndex(s, src), c)),
       contexts := s.contexts[SlotIndex(s, src) := NoContext][at := Typed(c, false)])
  }

  ghost function After(m: Machine, op: Op): Machine
    requires Ok(m.s) && Allowed(m, op)
  {
    var s := m.s;
    match op
    case PushArg(v) => Machine(PutArg(s, m.pending, v), m.pending + |v.words|, m.args + {m.pending})
    case Call(n, rv, rc) => Machine(PushFrame(s, n, rv, rc), 0, {})
    case WriteSlot(i, w) => m.(s := SetWord(s, i, w))
    case WriteContext(i, c, r) => m.(s := SetContext(s, i, c, r))
    case ClearContext(i) => m.(s := SetNullContext(s, i))
    case Return => Machine(EndFrame(s), 0, {})
    case ReturnValue(src, dst) =>
      GiveBackOk(s, src, dst);
      Machine(EndFrame(GiveBack(s, src, dst)), 0, {})
  }

  /** Nothing changes but the words of the value and two contexts. */
  lemma GiveBackWrites(s: Stack, src: nat, dst: nat)
    requires Ok(s) && CanGiveBack(s, src, dst) && FitsCaller(s, src, dst)
    ensures var r := GiveBack(s, src, dst); var caller := SavedFrame(s.words, s.frame.base);
            && r.nextBase == s.nextBase && r.frame == s.frame && |r.words| == |s.words| == |r.contexts|
            && (forall i ::
                  0 <= i < STACK_SLOTS && !(caller.base + RESERVED_SLOTS <= i < s.frame.base)
                  ==> r.words[i] == s.words[i])
            && (forall i :: 0 <= i < STACK_SLOTS && Owning(r.contexts[i])
                  ==> Owning(s.contexts[i]) || caller.base + RESERVED_SLOTS <= i < s.frame.base)
  {
    hide StoreValue, LoadValue, SlotsOf;
    var caller, c := SavedFrame(s.words, s.frame.base), ReturnType(s, src);
    StoredValue(s.words, caller.base + RESERVED_SLOTS + dst, LoadValue(s.words, SlotIndex(s, src), c));
  }

  /** Words written in the slots of the current frame's caller are no frame's reserved slots. */
  lemma {:induction false} CallerWordsKeep(v: seq<Word>, w: seq<Word>, nextBase: nat, frame: Frame)
    requires ChainOk(v, nextBase, frame) && nextBase > 0 && frame.base > 0 && |v| == |w|
    requires forall i ::
      0 <= i < |v| && !(SavedFrame(v, frame.base).base + RESERVED_SLOTS <= i < frame.base) ==> v[i] == w[i]
    ensures SameReserved(v, w, nextBase, frame) && SameReserved(v, w, frame.base, SavedFrame(v, frame.base))
  {
    var caller := SavedFrame(v, frame.base);
    WriteKeepsReserved(v, w, frame.base, caller, caller.base + RESERVED_SLOTS);
  }

  lemma {:induction false} GiveBackOk(s: Stack, src: nat, dst: nat)
    requires Ok(s) && CanGiveBack(s, src, dst) && FitsCaller(s, src, dst)
    ensures var r := GiveBack(s, src, dst);
            Ok(r) && r.nextBase == s.nextBase && r.frame == s.frame && FramesOf(r) == FramesOf(s)
  {
    GiveBackWrites(s, src, dst);
    hide GiveBack, CanGiveBack, FitsCaller, Frames, SameReserved;
    var r := GiveBack(s, src, dst);
    CallerWordsKeep(s.words, r.words, s.nextBase, s.frame);
    ChainUnchanged(s.words, r.words, s.nextBase, s.frame);
  }

  // ---- Hygiene ----

  /** The reserved slots of the chained frames own nothing. */
  ghost predicate ReservedClean(cs: seq<SlotContext>, words: seq<Word>, nextBase: nat, frame: Frame)
    requires ChainOk(words, nextBase, frame) && |cs| == |words|
    decreases nextBase
  {
    nextBase == 0 ||
    (&& (forall i :: frame.base <= i < frame.base + RESERVED_SLOTS ==> !Owning(cs[i]))
     && (frame.base > 0 ==> ReservedClean(cs, words, frame.base, SavedFrame(words, frame.base))))
  }

  /** Above the current frame the first slots of the arguments pushed for the next call own their values,
      and no other slot owns anything. */
  ghost predicate Hygienic(m: Machine)
    requires Ok(m.s)
  {
    && m.s.nextBase + m.pending <= STACK_SLOTS
    && (forall o :: o in m.args ==> o < m.pending)
    && (forall i :: m.s.nextBase <= i < STACK_SLOTS
          ==> (Owning(m.s.contexts[i]) <==> i - m.s.nextBase - RESERVED_SLOTS in m.args))
    && ReservedClean(m.s.contexts, m.s.words, m.s.nextBase, m.s.frame)
  }

  /** Contexts that change only above the frames, or from clean to clean, keep the reserved slots clean. */
  lemma {:induction false} ReservedCleanKept(cs: seq<SlotContext>, ds: seq<SlotContext>, v: seq<Word>, w: seq<Word>,
                                             nextBase: nat, frame: Frame, limit: nat)
    requires ChainOk(v, nextBase, frame) && ChainOk(w, nextBase, frame) && |cs| == |v| == |ds| == |w|
    requires SameReserved(v, w, nextBase, frame)
    requires ReservedClean(cs, v, nextBase, frame)
    requires forall i :: 0 <= i < |cs| && i < limit ==> (Owning(ds[i]) ==> Owning(cs[i]))
    requires nextBase == 0 || frame.base + RESERVED_SLOTS <= limit
    ensures ReservedClean(ds, w, nextBase, frame)
    decreases nextBase
  {
    if nextBase != 0 && frame.base != 0 {
      var b := frame.base;
      assert v[b..b + 4] == [v[b], v[b + 1], v[b + 2], v[b + 3]];
      assert w[b..b + 4] == [w[b], w[b + 1], w[b + 2], w[b + 3]];
      ReservedCleanKept(cs, ds, v, w, b, SavedFrame(v, b), limit);
    }
  }

  /** The abstract machine: a plain stack of frame records, which only calls and returns touch. */
  function AbstractAfter(frames: seq<Frame>, op: Op): seq<Frame>
    requires op.Return? || op.ReturnValue? ==> frames != []
  {
    match op
    case Call(n, rv, rc) =>
      frames + [Frame(if frames == [] then 0
                      else frames[|frames| - 1].base + RESERVED_SLOTS + frames[|frames| - 1].length,
                      if n < TWO_64 then n else 0, rv, rc)]
    case Return => frames[..|frames| - 1]
    case ReturnValue(_, _) => frames[..|frames| - 1]
    case _ => frames
  }

  ghost predicate Inv(m: Machine) {
    Ok(m.s) && Hygienic(m)
  }

  lemma UnwindKeeps(s: Stack)
    requires Inv(Machine(s, 0, {})) && s.nextBase != 0
    ensures var u := Unwind(s);
            && Ok(u) && FramesOf(u) == FramesOf(s) && u.words == s.words
            && ReservedClean(u.contexts, u.words, u.nextBase, u.frame)
            && (forall i :: SlotIndex(s, 0) <= i < STACK_SLOTS ==> !Owning(u.contexts[i]))
  {
    var u := Unwind(s);
    WriteKeepsReserved(s.words, s.words, s.nextBase, s.frame, STACK_SLOTS);
    ReservedCleanKept(s.contexts, u.contexts, s.words, s.words, s.nextBase, s.frame, STACK_SLOTS);
  }

  lemma EndFrameKeeps(s: Stack)
    requires Inv(Machine(s, 0, {})) && s.nextBase != 0
    ensures Inv(Machine(EndFrame(s), 0, {}))
    ensures FramesOf(s) != [] && FramesOf(EndFrame(s)) == FramesOf(s)[..|FramesOf(s)| - 1]
  {
    UnwindKeeps(s);
    PopRefines(Unwind(s));
  }

  /** The first slot of a pushed argument owns its value; nothing else changes owners. */
  lemma PutArgOwns(s: Stack, offset: nat, v: Value)
    requires Sized(s) && ValueOk(v) && |v.words| > 0 && s.nextBase + RESERVED_SLOTS + offset + |v.words| <= STACK_SLOTS
    requires forall i :: s.nextBase + RESERVED_SLOTS + offset <= i < STACK_SLOTS ==> !Owning(s.contexts[i])
    ensures var cs := PutArg(s, offset, v).contexts;
            && |cs| == STACK_SLOTS
            && (forall i :: 0 <= i < STACK_SLOTS
                  ==> (Owning(cs[i]) <==> Owning(s.contexts[i]) || i == s.nextBase + RESERVED_SLOTS + offset))
  {
    hide StoreValue;
  }

  lemma PutArgWords(s: Stack, offset: nat, v: Value)
    requires Sized(s) && ValueOk(v) && |v.words| > 0 && s.nextBase + RESERVED_SLOTS + offset + |v.words| <= STACK_SLOTS
    ensures var r := PutArg(s, offset, v);
            |r.words| == STACK_SLOTS && r.nextBase == s.nextBase && r.frame == s.frame
            && forall i :: 0 <= i < s.nextBase ==> r.words[i] == s.words[i]
  {
    StoredValue(s.words, s.nextBase + RESERVED_SLOTS + offset, v);
    hide StoreValue, ValueOk, SlotsOf, CopyOut;
  }

  lemma {:induction false} PutArgKeeps(m: Machine, v: Value)
    requires Inv(m) && Allowed(m, PushArg(v))
    ensures var r := After(m, PushArg(v)); Inv(r) && FramesOf(r.s) == FramesOf(m.s)
  {
    var s, r := m.s, PutArg(m.s, m.pending, v);
    PutArgOwns(s, m.pending, v);
    PutArgWords(s, m.pending, v);
    hide PutArg, ValueOk, SlotsOf, ChainOk, Frames, ReservedClean, SameReserved, Owning;
    if s.nextBase != 0 {
      KeptAbove(s, r);
    } else {
      NothingChained(s, r);
    }
  }

  lemma NothingChained(s: Stack, r: Stack)
    requires Ok(s) && s.nextBase == 0 && r.nextBase == 0 && r.frame == s.frame && Sized(r)
    ensures Ok(r) && FramesOf(r) == FramesOf(s) && ReservedClean(r.contexts, r.words, r.nextBase, r.frame)
  {
  }

  lemma {:induction false} KeptAbove(s: Stack, r: Stack)
    requires Ok(s) && s.nextBase != 0 && r.nextBase == s.nextBase && r.frame == s.frame && Sized(r)
    requires ReservedClean(s.contexts, s.words, s.nextBase, s.frame)
    requires forall i ::
      0 <= i < s.nextBase ==> r.words[i] == s.words[i] && (Owning(r.contexts[i]) ==> Owning(s.contexts[i]))
    ensures Ok(r) && FramesOf(r) == FramesOf(s) && ReservedClean(r.contexts, r.words, r.nextBase, r.frame)
  {
    WriteKeepsReserved(s.words, r.words, s.nextBase, s.frame, s.nextBase);
    ChainUnchanged(s.words, r.words, s.nextBase, s.frame);
    ReservedCleanKept(s.contexts, r.contexts, s.words, r.words, s.nextBase, s.frame, s.nextBase);
  }

  lemma CallClean(s: Stack, n: nat, rv: Word, rc: Word)
    requires Ok(s) && ReservedClean(s.contexts, s.words, s.nextBase, s.frame)
    requires CanPush(s, n) && forall i :: s.nextBase <= i < s.nextBase + RESERVED_SLOTS ==> !Owning(s.contexts[i])
    ensures var r := PushFrame(s, n, rv, rc); Ok(r) && ReservedClean(r.contexts, r.words, r.nextBase, r.frame)
  {
    var r := PushFrame(s, n, rv, rc);
    PushRefines(s, n, rv, rc);
    if s.nextBase != 0 {
      WriteKeepsReserved(s.words, r.words, s.nextBase, s.frame, s.nextBase);
      ReservedCleanKept(s.contexts, r.contexts, s.words, r.words, s.nextBase, s.frame, s.nextBase);
      assert SavedFrame(r.words, s.nextBase) == s.frame;
    }
  }

  lemma CallKeeps(m: Machine, n: nat, rv: Word, rc: Word)
    requires Inv(m) && Allowed(m, Call(n, rv, rc))
    ensures var r := After(m, Call(n, rv, rc));
            && Inv(r) && FramesOf(r.s) == FramesOf(m.s) + [Frame(m.s.nextBase, n, rv, rc)]
            && (forall i :: 0 <= i < n ==> (Owning(r.s.contexts[SlotIndex(r.s, i)]) <==> i in m.args))
  {
    PushRefines(m.s, n, rv, rc);
    CallClean(m.s, n, rv, rc);
    hide ChainOk, Frames, ReservedClean, Overwrite, Owning;
  }

  lemma TopFrame(s: Stack)
    requires Ok(s) && s.nextBase != 0
    ensures s.frame.base + RESERVED_SLOTS + s.frame.length == s.nextBase <= STACK_SLOTS
  {
  }

  lemma SlotWriteKeeps(m: Machine, op: Op)
    requires Inv(m) && (op.WriteSlot? || op.WriteContext? || op.ClearContext?) && Allowed(m, op)
    ensures var r := After(m, op); Inv(r) && FramesOf(r.s) == FramesOf(m.s)
  {
    hide ChainOk, Frames, SameReserved, ReservedClean, EndFrame, GiveBack, PutArg;
    var s, r := m.s, After(m, op).s;
    TopFrame(s);
    var limit := s.frame.base + RESERVED_SLOTS;
    SlotWriteKeepsFrames(s, r);
    WriteKeepsReserved(s.words, r.words, s.nextBase, s.frame, limit);
    ReservedCleanKept(s.contexts, r.contexts, s.words, r.words, s.nextBase, s.frame, limit);
  }

  /** Frame records survive every context write that the code's checks let through; who owns what stays right
      if and only if no argument pushed already loses its context. */
  lemma {:induction false} ContextKeepsExactly(m: Machine, i: nat, c: TypeContext, isReference: bool)
    requires Inv(m) && m.s.nextBase != 0 && ContextChecks(m.s, i, c)
    requires SlotIndex(m.s, i) + ClearedAfter(c) < STACK_SLOTS
    ensures var r := m.(s := SetContext(m.s, i, c, isReference));
      && Ok(r.s) && FramesOf(r.s) == FramesOf(m.s)
      && (Hygienic(r) <==> SparesArgs(m, i, c))
  {
    var r := m.(s := SetContext(m.s, i, c, isReference));
    SlotWriteKeepsFrames(m.s, r.s);
    if SparesArgs(m, i, c) {
      SlotWriteKeeps(m, WriteContext(i, c, isReference));
    } else {
      hide ChainOk, Frames, ReservedClean;
      var o :| o in m.args && !(SlotIndex(m.s, i) + ClearedAfter(c) < m.s.nextBase + RESERVED_SLOTS + o);
      var k := m.s.nextBase + RESERVED_SLOTS + o;
      assert r.s.contexts[k] == NoContext;
    }
  }

  lemma {:induction false} CallerContextsKeep(cs: seq<SlotContext>, ds: seq<SlotContext>, v: seq<Word>, w: seq<Word>,
                                              nextBase: nat, frame: Frame)
    requires ChainOk(v, nextBase, frame) && nextBase > 0 && frame.base > 0 && |cs| == |ds| == |v| == |w|
    requires (forall i :: 0 <= i < |v| && !(SavedFrame(v, frame.base).base + RESERVED_SLOTS <= i < frame.base)
                ==> v[i] == w[i] && (Owning(ds[i]) ==> Owning(cs[i])))
    requires ReservedClean(cs, v, nextBase, frame)
    ensures ChainOk(w, nextBase, frame) && ReservedClean(ds, w, nextBase, frame)
  {
    var b, caller := frame.base, SavedFrame(v, frame.base);
    CallerWordsKeep(v, w, nextBase, frame);
    ChainUnchanged(v, w, nextBase, frame);
    hide SameReserved, Frames;
    assert v[b] == w[b] && v[b + 1] == w[b + 1] && v[b + 2] == w[b + 2] && v[b + 3] == w[b + 3];
    ReservedCleanKept(cs, ds, v, w, b, caller, caller.base + RESERVED_SLOTS);
  }

  lemma {:induction false} GiveBackKeeps(s: Stack, src: nat, dst: nat)
    requires Inv(Machine(s, 0, {})) && Allowed(Machine(s, 0, {}), ReturnValue(src, dst))
    ensures var r := GiveBack(s, src, dst); Inv(Machine(r, 0, {})) && FramesOf(r) == FramesOf(s)
  {
    GiveBackOk(s, src, dst);
    GiveBackWrites(s, src, dst);
    var r := GiveBack(s, src, dst);
    assert s.frame.base <= s.nextBase;
    hide GiveBack, CanGiveBack, FitsCaller, Frames, ReservedClean, Owning;
    CallerContextsKeep(s.contexts, r.contexts, s.words, r.words, s.nextBase, s.frame);
  }

  /** An argument pushed before a call is the function's, byte for byte and with its type, in the slot behind the
      arguments pushed before it. */
  lemma {:induction false} ArgumentArrives(m: Machine, v: Value, n: nat, rv: Word, rc: Word)
    requires Inv(m) && Allowed(m, PushArg(v))
    requires Ok(After(m, PushArg(v)).s) && Allowed(After(m, PushArg(v)), Call(n, rv, rc))
    ensures var r := After(After(m, PushArg(v)), Call(n, rv, rc)).s; var at := r.frame.base + 4 + m.pending;
      && r.frame.base == m.s.nextBase && r.frame.length == n
      && at + |v.words| <= STACK_SLOTS == |r.words| == |r.contexts| && v.context.sizeOfType <= 8 * |v.words|
      && (forall b :: 0 <= b < v.context.sizeOfType ==> SlotByte(r.words, at, b) == ByteOf(v.words[b / 8], b % 8))
      && r.contexts[at] == Typed(v.context, false)
      && forall i :: 0 <= i < at && !(m.s.nextBase <= i < m.s.nextBase + 4) ==>
           r.words[i] == m.s.words[i] && r.contexts[i] == m.s.contexts[i]
  {
    hide StoreValue, ByteOf, MemoryByte, SlotByte, Frames, ReservedClean, Hygienic;
    var p := PutArg(m.s, m.pending, v);
    PutArgKeeps(m, v);
    PutArgWords(m.s, m.pending, v);
    StoredValue(m.s.words, m.s.nextBase + RESERVED_SLOTS + m.pending, v);
    PushSaves(p, n, rv, rc);
    var r := After(After(m, PushArg(v)), Call(n, rv, rc)).s;
    var at := m.s.nextBase + RESERVED_SLOTS + m.pending;
    forall b | 0 <= b < v.context.sizeOfType ensures SlotByte(r.words, at, b) == ByteOf(v.words[b / 8], b % 8) {
      StoredBytes(m.s.words, at, v, b);
      SameSlotByte(p.words, r.words, at, b);
    }
  }

  lemma SameSlotByte(v: seq<Word>, w: seq<Word>, at: nat, b: nat)
    requires |v| == |w| && 8 * at + b < 8 * |v| && forall i :: at <= i < |v| ==> v[i] == w[i]
    ensures SlotByte(v, at, b) == SlotByte(w, at, b)
  {
  }

  /** Ending a frame leaves all words, and all contexts below it. */
  lemma EndFrameLeaves(s: Stack)
    requires Ok(s) && s.nextBase != 0
    ensures var r := EndFrame(s);
      && r.words == s.words && |r.contexts| == |s.contexts|
      && (forall i :: 0 <= i < s.frame.base ==> r.contexts[i] == s.contexts[i])
      && (s.frame.base > 0 ==> r.frame == SavedFrame(s.words, s.frame.base))
  {
    PopRefines(s);
    WriteKeepsReserved(s.words, s.words, s.nextBase, s.frame, STACK_SLOTS);
    PopRefines(Unwind(s));
  }

  lemma {:induction false} HandedBytes(s: Stack, src: nat, dst: nat, from: nat, to: nat)
    requires Ok(s) && CanGiveBack(s, src, dst) && FitsCaller(s, src, dst)
    requires from == SlotIndex(s, src) && to == SavedFrame(s.words, s.frame.base).base + RESERVED_SLOTS + dst
    ensures var c, r := ReturnType(s, src), GiveBack(s, src, dst);
      && 8 * from + c.sizeOfType <= 8 * |s.words| && 8 * to + c.sizeOfType <= 8 * |r.words| == 8 * |s.words|
      && (forall b :: 0 <= b < c.sizeOfType ==> SlotByte(r.words, to, b) == SlotByte(s.words, from, b))
      && (forall k :: 0 <= k < 8 * |s.words| && !(8 * to <= k < 8 * to + c.sizeOfType) ==>
            MemoryByte(r.words, k) == MemoryByte(s.words, k))
  {
    hide StoreValue, LoadValue, MemoryByte;
    var c, r := ReturnType(s, src), GiveBack(s, src, dst);
    forall b | 0 <= b < c.sizeOfType ensures SlotByte(r.words, to, b) == SlotByte(s.words, from, b) {
      CopiedBytes(s.words, from, to, c, b);
    }
    forall k | 0 <= k < 8 * |s.words| && !(8 * to <= k < 8 * to + c.sizeOfType)
      ensures MemoryByte(r.words, k) == MemoryByte(s.words, k)
    {
      OtherBytes(s.words, from, to, c, k);
    }
  }

  lemma HandedContexts(s: Stack, src: nat, dst: nat, to: nat)
    requires Ok(s) && CanGiveBack(s, src, dst) && FitsCaller(s, src, dst)
    requires to == SavedFrame(s.words, s.frame.base).base + RESERVED_SLOTS + dst
    ensures var cs := GiveBack(s, src, dst).contexts;
      && to < s.frame.base <= |cs| == |s.contexts| && cs[to] == Typed(ReturnType(s, src), false)
      && forall i :: 0 <= i < s.frame.base && i != to ==> cs[i] == s.contexts[i]
  {
  }

  /** The bytes of a returned value, and its type without the tag bit, arrive at the caller's slot; every other
      byte and every other context below the function's frame is as it was. */
  lemma {:induction false} ReturnHandsOver(m: Machine, src: nat, dst: nat, from: nat, to: nat, c: TypeContext)
    requires Inv(m) && Allowed(m, ReturnValue(src, dst))
    requires from == m.s.frame.base + 4 + src && m.s.contexts[from].Typed? && m.s.contexts[from].context == c
    requires to == After(m, ReturnValue(src, dst)).s.frame.base + 4 + dst
    ensures var s, r := m.s, After(m, ReturnValue(src, dst)).s;
      && r.frame == SavedFrame(s.words, s.frame.base) && |r.words| == |s.words| == |r.contexts| == |s.contexts|
      && 8 * from + c.sizeOfType <= 8 * |s.words| && 8 * to + c.sizeOfType <= 8 * s.frame.base <= 8 * |s.words|
      && (forall b :: 0 <= b < c.sizeOfType ==> SlotByte(r.words, to, b) == SlotByte(s.words, from, b))
      && (forall k :: 0 <= k < 8 * |s.words| && !(8 * to <= k < 8 * to + c.sizeOfType) ==>
            MemoryByte(r.words, k) == MemoryByte(s.words, k))
      && to < s.frame.base && r.contexts[to] == Typed(c, false)
      && forall i :: 0 <= i < s.frame.base && i != to ==> r.contexts[i] == s.contexts[i]
  {
    hide MemoryByte, SlotByte, Frames, Hygienic, GiveBack, EndFrame;
    var s := m.s;
    GiveBackOk(s, src, dst);
    EndFrameLeaves(GiveBack(s, src, dst));
    GiveBackKeepsCaller(s, src, dst);
    HandedContexts(s, src, dst, to);
    HandedBytes(s, src, dst, from, to);
  }

  /** The caller's record is among the words that are kept. */
  lemma GiveBackKeepsCaller(s: Stack, src: nat, dst: nat)
    requires Ok(s) && CanGiveBack(s, src, dst) && FitsCaller(s, src, dst)
    ensures var r := GiveBack(s, src, dst);
      && r.frame.base == s.frame.base && s.frame.base + 4 <= |r.words| == |s.words|
      && r.words[s.frame.base + 1] == s.words[s.frame.base + 1]
      && r.words[s.frame.base + 2] == s.words[s.frame.base + 2]
      && r.words[s.frame.base + 3] == s.words[s.frame.base + 3]
  {
    GiveBackWrites(s, src, dst);
    hide GiveBack;
  }

  /** Every operation keeps the invariant, and does to the frame records what it would do to a plain stack. */
  lemma StepRefines(m: Machine, op: Op)
    requires Inv(m) && Allowed(m, op)
    ensures Inv(After(m, op))
    ensures op.Return? || op.ReturnValue? ==> FramesOf(m.s) != []
    ensures FramesOf(After(m, op).s) == AbstractAfter(FramesOf(m.s), op)
  {
    match op
    case PushArg(v) => PutArgKeeps(m, v);
    case Call(n, rv, rc) =>
      CallKeeps(m, n, rv, rc);
      PopRefinesIfAny(m.s);
    case Return => EndFrameKeeps(m.s);
    case ReturnValue(src, dst) =>
      GiveBackKeeps(m.s, src, dst);
      EndFrameKeeps(GiveBack(m.s, src, dst));
    case _ => SlotWriteKeeps(m, op);
  }

  lemma PopRefinesIfAny(s: Stack)
    requires Ok(s)
    ensures s.nextBase == 0 <==> FramesOf(s) == []
    ensures s.nextBase != 0 ==>
      FramesOf(s)[|FramesOf(s)| - 1] == s.frame && s.nextBase == s.frame.base + RESERVED_SLOTS + s.frame.length
  {
  }

  ghost predicate IsRun(m: Machine, ops: seq<Op>)
    decreases ops
  {
    ops == [] || (Ok(m.s) && Allowed(m, ops[0]) && IsRun(After(m, ops[0]), ops[1..]))
  }

  ghost function Run(m: Machine, ops: seq<Op>): Machine
    requires IsRun(m, ops)
    decreases ops
  {
    if ops == [] then m else Run(After(m, ops[0]), ops[1..])
  }

  function AbstractRun(frames: seq<Frame>, ops: seq<Op>): seq<Frame>
    decreases ops
  {
    if ops == [] then frames
    else if (ops[0].Return? || ops[0].ReturnValue?) && frames == [] then []
    else AbstractRun(AbstractAfter(frames, ops[0]), ops[1..])
  }

  /** The flat chain refines a stack of frame records, and hygiene holds, in every reachable state. */
  lemma {:induction false} RunRefines(m: Machine, ops: seq<Op>)
    requires Inv(m) && IsRun(m, ops)
    ensures Inv(Run(m, ops))
    ensures FramesOf(Run(m, ops).s) == AbstractRun(FramesOf(m.s), ops)
    decreases ops
  {
    if ops != [] {
      StepRefines(m, ops[0]);
      RunRefines(After(m, ops[0]), ops[1..]);
    }
  }

  lemma FreshInv()
    ensures Inv(Machine(Fresh(), 0, {})) && FramesOf(Fresh()) == []
  {
  }

  /** A run after which the code's checks pass, and writing the type of a value of 48 bytes to the frame's last
      slot takes the context of the argument pushed for the next call. */
  lemma {:induction false} ClearedArgument(v: Value, c: TypeContext, ops: seq<Op>)
    requires ValueOk(v) && v.context.sizeOfType == 8 && c.sizeOfType == 48
    requires ops == [Call(6, 0, 0), PushArg(v)]
    ensures IsRun(Machine(Fresh(), 0, {}), ops)
    ensures var m := Run(Machine(Fresh(), 0, {}), ops);
      && Inv(m) && m.args == {0} && m.s.frame == Frame(0, 6, 0, 0) && m.s.nextBase == 10
      && m.s.contexts[14] == Typed(v.context, false)
      && ContextChecks(m.s, 5, c) && !SparesArgs(m, 5, c)
      && SetContext(m.s, 5, c, false).contexts[14] == NoContext
  {
    FreshInv();
    hide StoreValue, ChainOk, Frames, ReservedClean;
    var m0 := Machine(Fresh(), 0, {});
    StepRefines(m0, ops[0]);
    var m1 := After(m0, ops[0]);
    StepRefines(m1, ops[1]);
    var m2 := After(m1, ops[1]);
    assert ops[1..] == [ops[1]] && ops[1..][1..] == [];
    assert IsRun(m1, ops[1..]) && Run(m1, ops[1..]) == m2;
  }

  /** So a new frame may be used without clearing it: in every reachable state, the slots of a frame about
      to be pushed that own anything are the first slots of the pushed arguments, and no others. */
  lemma NewFrameOwnsOnlyArguments(ops: seq<Op>, n: nat, rv: Word, rc: Word)
    requires IsRun(Machine(Fresh(), 0, {}), ops)
    requires Ok(Run(Machine(Fresh(), 0, {}), ops).s) && Allowed(Run(Machine(Fresh(), 0, {}), ops), Call(n, rv, rc))
    ensures var m := Run(Machine(Fresh(), 0, {}), ops);
            var r := After(m, Call(n, rv, rc)).s;
            && Ok(r) && r.frame.length == n
            && forall i :: 0 <= i < n ==> (Owning(r.contexts[SlotIndex(r, i)]) <==> i in m.args)
  {
    FreshInv();
    RunRefines(Machine(Fresh(), 0, {}), ops);
    CallKeeps(Run(Machine(Fresh(), 0, {}), ops), n, rv, rc);
  }

  /** Nothing above the caller's frame owns a value once a frame has ended. */
  lemma {:induction false} EndFrameLeavesNone(m: Machine)
    requires Inv(m) && m.s.nextBase != 0 && m.pending == 0
    ensures forall i :: EndFrame(m.s).nextBase <= i < STACK_SLOTS ==> !Owning(EndFrame(m.s).contexts[i])
  {
    hide EndFrame, ReservedClean, ChainOk, Owning, Frames;
    EndFrameKeeps(m.s);
  }

  lemma {:induction false} DestroyedList(cs: seq<SlotContext>, start: nat, n: nat)
    requires start + n <= |cs|
    ensures var d := Destroyed(cs, start, n);
      && (forall k :: 0 <= k < |d| ==> d[k].0 < n && cs[start + d[k].0] == Typed(d[k].1, false))
      && (forall k, l :: 0 <= k < l < |d| ==> d[k].0 < d[l].0)
      && forall i :: start <= i < start + n && cs[i].Typed? && !cs[i].isReference ==> (i - start, cs[i].context) in d
  {
    hide Destroyed;
    DestroyedOnce(cs, start, n);
  }

  lemma FrameRoom(m: Machine)
    requires Inv(m) && m.s.nextBase != 0
    ensures |m.s.contexts| == STACK_SLOTS && m.s.frame.base + 4 + m.s.frame.length <= STACK_SLOTS
    ensures EndFrame(m.s).nextBase == m.s.frame.base && |EndFrame(m.s).contexts| == STACK_SLOTS
  {
    hide Hygienic, Frames;
  }

  /** Ending a frame destroys each value it owns once and in order, borrowed values never, and leaves none. */
  lemma {:induction false} EndFrameDestroysOnce(m: Machine)
    requires Inv(m) && m.s.nextBase != 0 && m.pending == 0
    ensures m.s.frame.base + 4 + m.s.frame.length <= |m.s.contexts|
    ensures var s, start := m.s, m.s.frame.base + 4;
      var d := Destroyed(s.contexts, start, s.frame.length);
      && (forall k :: 0 <= k < |d| ==> d[k].0 < s.frame.length && s.contexts[start + d[k].0] == Typed(d[k].1, false))
      && (forall k, l :: 0 <= k < l < |d| ==> d[k].0 < d[l].0)
      && forall i :: start <= i < start + s.frame.length && s.contexts[i].Typed? && !s.contexts[i].isReference ==>
           (i - start, s.contexts[i].context) in d
    ensures forall i :: m.s.frame.base <= i < STACK_SLOTS ==>
      var c := EndFrame(m.s).contexts[i];
      c == NoContext || (c.Typed? && c.isReference)
  {
    hide Destroyed, EndFrame, Inv, Ok;
    FrameRoom(m);
    DestroyedList(m.s.contexts, m.s.frame.base + 4, m.s.frame.length);
    EndFrameLeavesNone(m);
  }
}
