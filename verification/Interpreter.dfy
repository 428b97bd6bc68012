/** The interpreter's run loop on the real stack (src/interpreter/interpreter.c): what it does to the current
    frame is what the frame machine does, and nothing else changes. */
module Interpreter {
  import opened IntMath
  import opened StackSpec
  import opened Words
  import opened StackRuns
  import opened Options
  import opened CodeGen
  import opened Operations
  import opened FrameMachine
  import opened InterpreterStack

  predicate Viewable(s: Stack) {
    Sized(s) && SlotIndex(s, s.frame.length) <= STACK_SLOTS
  }

  /** The current frame's own slots. */
  function View(s: Stack): (m: Slots)
    requires Viewable(s)
    ensures WellSized(m) && |m.words| == s.frame.length
  {
    Slots(s.words[SlotIndex(s, 0)..SlotIndex(s, s.frame.length)],
      s.contexts[SlotIndex(s, 0)..SlotIndex(s, s.frame.length)])
  }

  /** A stack with a frame, outside which nothing is pending. */
  ghost predicate Running(s: Stack) {
    Inv(Machine(s, 0, {})) && s.nextBase != 0
  }

  lemma FrameFits(s: Stack)
    requires Running(s)
    ensures Viewable(s) && SlotIndex(s, s.frame.length) == s.nextBase && s.frame.length <= MAX_FRAME_LENGTH
  {
  }

  /** Below the frame's slots everything is as it was, and so are the frame records. */
  ghost predicate OnlyFrameChanged(s: Stack, r: Stack) {
    && Sized(s) && Sized(r) && r.nextBase == s.nextBase && r.frame == s.frame
    && (forall i ::
          0 <= i < SlotIndex(s, 0) && i < STACK_SLOTS ==> r.words[i] == s.words[i] && r.contexts[i] == s.contexts[i])
    && Ok(s) && Ok(r) && FramesOf(r) == FramesOf(s)
  }

  function WithInt(s: Stack, dst: nat, w: Word): Stack
    requires Sized(s) && SlotIndex(s, dst) < STACK_SLOTS
  {
    SetContext(SetWord(s, dst, w), dst, INT_CONTEXT, false)
  }

  lemma WithIntContexts(s: Stack, dst: nat, w: Word)
    requires Sized(s) && SlotIndex(s, dst) < STACK_SLOTS
    ensures WithInt(s, dst, w).contexts == s.contexts[SlotIndex(s, dst) := Typed(INT_CONTEXT, false)]
  {
  }

  lemma ViewStore(s: Stack, dst: nat, w: Word)
    requires Viewable(s) && dst < s.frame.length
    ensures SlotIndex(s, dst) < STACK_SLOTS && Viewable(WithInt(s, dst, w))
    ensures View(WithInt(s, dst, w)) == StoreInt(View(s), dst, w)
  {
    hide WithInt, SetContext;
    WithIntContexts(s, dst, w);
    WithIntWords(s, dst, w);
  }

  lemma WithIntWords(s: Stack, dst: nat, w: Word)
    requires Sized(s) && SlotIndex(s, dst) < STACK_SLOTS
    ensures var r := WithInt(s, dst, w);
            r.words == s.words[SlotIndex(s, dst) := w] && r.frame == s.frame && r.nextBase == s.nextBase && r.ip == s.ip
  {
  }

  lemma {:induction false} StoreKeeps(s: Stack, dst: nat, w: Word)
    requires Running(s) && dst < s.frame.length
    ensures Running(WithInt(s, dst, w)) && OnlyFrameChanged(s, WithInt(s, dst, w))
  {
    hide ChainOk, Frames, Hygienic;
    FrameFits(s);
    var m := Machine(s, 0, {});
    SlotWriteKeeps(m, WriteSlot(dst, w));
    var n := After(m, WriteSlot(dst, w));
    SlotWriteKeeps(n, WriteContext(dst, INT_CONTEXT, false));
    WithIntContexts(s, dst, w);
  }

  /** What one operation that does not end the function leaves behind. */
  ghost predicate Performed(s: Stack, r: Stack, slots: Slots) {
    Running(s) && Running(r) && OnlyFrameChanged(s, r) && Viewable(r) && View(r) == slots
  }

  /** Storing an integer and its context in a slot. */
  method StoreSlot(stack: StackState, dst: nat, w: Word)
    requires Running(stack.State()) && Viewable(stack.State()) && dst < stack.frame.length
    modifies stack`words, stack`contexts
    ensures var s := old(stack.State());
            Performed(s, stack.State(), StoreInt(View(s), dst, w)) && stack.ip == old(stack.ip)
  {
    hide WithInt, Running, StoreInt, View, OnlyFrameChanged, SetContext;
    ghost var s := stack.State();
    FrameFits(s);
    StoreKeeps(s, dst, w);
    ViewStore(s, dst, w);
    StoreParts(s, dst, w);
    stack.words := stack.words[stack.frame.base + RESERVED_SLOTS + dst := w];
    stack.SetContextAt(dst, INT_CONTEXT, false);
  }

  lemma StoreParts(s: Stack, dst: nat, w: Word)
    requires Running(s) && dst < s.frame.length
    ensures SlotIndex(s, dst) < STACK_SLOTS
    ensures var t := s.(words := s.words[SlotIndex(s, dst) := w]);
            SlotIndex(t, dst) + ClearedAfter(INT_CONTEXT) < STACK_SLOTS
              && WithInt(s, dst, w) == SetContext(t, dst, INT_CONTEXT, false)
  {
  }

  /** The frame is gone: its caller's record is back and nothing of the caller's was touched. */
  ghost predicate Ended(s: Stack, r: Stack) {
    && Running(s) && Inv(Machine(r, 0, {})) && r.nextBase == s.frame.base
    && FramesOf(s) != [] && FramesOf(r) == FramesOf(s)[..|FramesOf(s)| - 1]
    && (s.frame.base > 0 ==> r.frame == SavedFrame(s.words, s.frame.base))
    && (forall i ::
          0 <= i < SlotIndex(s, 0) && i < STACK_SLOTS ==> r.words[i] == s.words[i] && r.contexts[i] == s.contexts[i])
  }

  lemma {:induction false} EndFrameEnds(s: Stack)
    requires Running(s)
    ensures Ended(s, EndFrame(s)) && EndFrame(s).ip == s.ip
  {
    hide Hygienic, Frames;
    FrameFits(s);
    EndFrameKeeps(s);
    PopRefines(Unwind(s));
  }

  lemma {:induction false} ClearKeeps(s: Stack, src: nat)
    requires Running(s) && src < s.frame.length
    ensures SlotIndex(s, src) < STACK_SLOTS
    ensures var t := SetNullContext(s, src);
            Running(t) && OnlyFrameChanged(s, t) && t.words == s.words && t.ip == s.ip
  {
    hide ChainOk, Frames, Hygienic;
    FrameFits(s);
    SlotWriteKeeps(Machine(s, 0, {}), ClearContext(src));
  }

  lemma {:induction false} EndsAfterClear(s: Stack, t: Stack, r: Stack)
    requires Running(s) && OnlyFrameChanged(s, t) && t.words == s.words && Ended(t, r)
    ensures Ended(s, r)
  {
    hide ChainOk, Frames, Hygienic, ReservedClean;
  }

  /** The end of every function: destructors, then the pop. */
  method EndCurrentFrame(stack: StackState)
    requires Running(stack.State())
    modifies stack
    ensures Ended(old(stack.State()), stack.State()) && stack.ip == old(stack.ip)
  {
    hide Running, Ended, Destroyed, UnwoundContexts, ChainOk, Frames, ReservedClean, Hygienic;
    FrameFits(stack.State());
    EndFrameEnds(stack.State());
    UnwoundOk(stack.State());
    var destroyed := stack.UnwindFrame();
    stack.PopFrame();
  }

  lemma {:induction false} UnwoundOk(s: Stack)
    requires Running(s)
    ensures Sized(s) && SlotIndex(s, s.frame.length) <= STACK_SLOTS
    ensures Ok(s) && Ok(Unwind(s)) && Unwind(s).nextBase == s.nextBase && Unwind(s).frame == s.frame && s.nextBase != 0
  {
    hide Hygienic, Frames;
    FrameFits(s);
    UnwindKeeps(s);
  }

  // ---- Returns ----

  /** A place in the memory of the C caller: a returned value or the pointer to its type. */
  datatype Cell = ValueCell(word: Word) | TypeCell(context: TypeContext)

  /** The memory of the C caller, by address. */
  class Host {
    var cells: map<Word, Cell>

    constructor ()
      ensures cells == map[]
    {
      cells := map[];
    }
  }

  /** The value is stored first, then its type. */
  function StoreReturn(cells: map<Word, Cell>, valueDst: Word, contextDst: Word, value: Option<Word>): map<Word, Cell> {
    match value
    case None => cells
    case Some(w) => cells[valueDst := ValueCell(w)][contextDst := TypeCell(INT_CONTEXT)]
  }

  /** The value a run has returned. */
  function ReturnedValue(r: Result): Option<Word> {
    if r.Finished? then r.value else None
  }

  /** `execute_return`: the value goes to the caller's destination, and the frame ends. */
  method ExecuteReturn(stack: StackState, host: Host, hasReturn: bool, returnSrc: nat) returns (value: Option<Word>)
    requires Running(stack.State()) && Viewable(stack.State())
    requires hasReturn ==>
      returnSrc < stack.frame.length && IsInt(View(stack.State()), returnSrc)
      && stack.frame.returnValueDst != 0 && stack.frame.returnContextDst != 0
    modifies stack, host
    ensures host.cells == StoreReturn(old(host.cells), old(stack.frame.returnValueDst),
      old(stack.frame.returnContextDst), value)
    ensures FrameMachine.ExecuteReturn(View(old(stack.State())), hasReturn, returnSrc) == Stop(Finished(value))
    ensures !hasReturn ==> host.cells == old(host.cells)
    ensures hasReturn ==>
      var s := old(stack.State());
      var valueDst, contextDst := s.frame.returnValueDst, s.frame.returnContextDst;
      && contextDst in host.cells && host.cells[contextDst] == TypeCell(INT_CONTEXT)
      && (valueDst != contextDst ==>
            && valueDst in host.cells
            && host.cells[valueDst] == ValueCell(s.words[s.frame.base + RESERVED_SLOTS + returnSrc]))
      && (forall a :: a != valueDst && a != contextDst ==>
            && (a in host.cells <==> a in old(host.cells))
            && (a in host.cells ==> host.cells[a] == old(host.cells)[a]))
    ensures Ended(old(stack.State()), stack.State()) && stack.ip == old(stack.ip)
  {
    hide Running, Ended, OnlyFrameChanged;
    ghost var s := stack.State();
    KeptAsIs(s);
    value := None;
    if hasReturn {
      ClearKeeps(s, returnSrc);
      var src := stack.words[stack.frame.base + RESERVED_SLOTS + returnSrc];
      value := Some(src);
      stack.SetNullContextAt(returnSrc);
      host.cells := host.cells[stack.frame.returnValueDst := ValueCell(src)];
      host.cells := host.cells[stack.frame.returnContextDst := TypeCell(INT_CONTEXT)];
    }
    ghost var t := stack.State();
    EndCurrentFrame(stack);
    EndsAfterClear(s, t, stack.State());
  }

  lemma KeptAsIs(s: Stack)
    requires Running(s)
    ensures OnlyFrameChanged(s, s)
  {
    hide Hygienic, ChainOk, Frames;
  }

  // ---- One operation ----

  /** Byte address of instruction `pc` of code that starts at `start`. */
  function Address(start: Word, pc: nat): nat {
    start + 8 * pc
  }

  predicate CodeFits(code: seq<Word>, start: Word) {
    Address(start, |code|) < TWO_64
  }

  predicate GivesValue(r: Result) {
    r.Finished? && r.value.Some?
  }

  /** The code asserts that a caller of a function that returns a value gave it a place to go. */
  ghost predicate CanReturnValue(s: Stack) {
    s.frame.returnValueDst != 0 && s.frame.returnContextDst != 0
  }

  /** How the state after one operation follows from the frame machine's step. */
  ghost predicate Follows(s: Stack, r: Stack, step: Step, err: bool, value: Option<Word>) {
    match step
    case Next(_, slots) => !err && Performed(s, r, slots)
    case Stop(Finished(v)) => !err && value == v && Ended(s, r)
    case Stop(OverflowError) => err && Running(r) && OnlyFrameChanged(s, r)
    case Stop(Stuck) => false
  }

  /** `execute_add` on integers with a destination; true for the overflow error. */
  method ExecuteAdd(stack: StackState, canOverflow: bool, dst: nat, src1: nat, src2: nat) returns (err: bool)
    requires Running(stack.State()) && Viewable(stack.State())
    requires FrameMachine.ExecuteAdd(View(stack.State()), canOverflow, dst, src1, src2) != Stop(Stuck)
    modifies stack`words, stack`contexts
    ensures stack.ip == old(stack.ip)
    ensures var s := old(stack.State());
            Follows(s, stack.State(), FrameMachine.ExecuteAdd(View(s), canOverflow, dst, src1, src2), err, None)
  {
    hide Running, Ended, OnlyFrameChanged, StoreInt, ToInt, ToWord;
    KeptAsIs(stack.State());
    var base := stack.frame.base + RESERVED_SLOTS;
    var a, b := ToInt(stack.words[base + src1]), ToInt(stack.words[base + src2]);
    if WouldAddOverflow(a, b) {
      return true;
    }
    StoreSlot(stack, dst, ToWord(a + b));
    return false;
  }

  lemma AddAdvances(m: Slots, canOverflow: bool, dst: nat, src1: nat, src2: nat)
    requires WellSized(m)
    ensures var s := FrameMachine.ExecuteAdd(m, canOverflow, dst, src1, src2); s.Next? ==> s.increment == 1
  {
  }

  /** `cubs_interpreter_execute_operation`: decodes the word at the instruction pointer, performs it and
      moves the pointer on. */
  method ExecuteOperation(stack: StackState, host: Host, code: seq<Word>, start: Word, pc: nat)
    returns (err: bool, value: Option<Word>)
    requires Running(stack.State()) && Viewable(stack.State())
    requires CodeFits(code, start) && pc < |code| && stack.ip == start + 8 * pc
    requires var step := Execute(code, pc, View(stack.State()));
             step != Stop(Stuck) && (step.Stop? && GivesValue(step.result) ==> CanReturnValue(stack.State()))
    modifies stack, host
    ensures host.cells == StoreReturn(old(host.cells), old(stack.frame.returnValueDst),
      old(stack.frame.returnContextDst), value)
    ensures Execute(code, pc, View(old(stack.State()))).Next? || err ==> value == None
    ensures var s := old(stack.State()); var step := Execute(code, pc, View(s));
            Follows(s, stack.State(), step, err, value)
              && (step.Next? ==> stack.ip == start + 8 * (pc + step.increment))
  {
    hide Running, Ended, OnlyFrameChanged, StoreInt, ToInt, ToWord, Decode, FrameMachine.ExecuteAdd;
    var ipIncrement := 1;
    err, value := false, None;
    match Decode(code[pc]) {
      case LoadImmediateLong(tag, dst) =>
        StoreSlot(stack, dst, code[pc + 1]);
        ipIncrement := ipIncrement + 1;
      case Return(hasReturn, src) => value := ExecuteReturn(stack, host, hasReturn, src);
      case AddDst(canOverflow, dst, src1, src2) =>
        AddAdvances(View(stack.State()), canOverflow, dst, src1, src2);
        err := ExecuteAdd(stack, canOverflow, dst, src1, src2);
    }
    ghost var r := stack.State();
    stack.ip := Address(start, pc + ipIncrement);
    IpIsApart(old(stack.State()), r, stack.ip);
  }

  /** The instruction pointer plays no part in the frames. */
  lemma IpIsApart(s: Stack, r: Stack, ip: Word)
    ensures Running(r) == Running(r.(ip := ip)) && Viewable(r) == Viewable(r.(ip := ip))
    ensures OnlyFrameChanged(s, r) == OnlyFrameChanged(s, r.(ip := ip))
    ensures Ended(s, r) == Ended(s, r.(ip := ip))
    ensures Viewable(r) ==> View(r) == View(r.(ip := ip))
  {
    hide ChainOk, Frames, ReservedClean;
  }

  // ---- A whole function ----

  lemma RunStep(code: seq<Word>, pc: nat, m: Slots)
    requires WellSized(m) && RunCode(code, pc, m) != Stuck
    ensures pc < |code| && Execute(code, pc, m) != Stop(Stuck)
    ensures var s := Execute(code, pc, m);
            if s.Stop? then RunCode(code, pc, m) == s.result
            else && pc + s.increment <= |code| && s.increment > 0 && WellSized(s.slots)
                 && RunCode(code, pc + s.increment, s.slots) == RunCode(code, pc, m)
  {
    hide Execute;
    if pc < |code| {
      ExecuteAdvances(code, pc, m);
    }
  }

  /** Only a return ends a function without an error. */
  lemma ReturnsStop(code: seq<Word>, pc: nat, m: Slots)
    requires WellSized(m) && pc < |code|
    ensures var s := Execute(code, pc, m);
            (s.Stop? && s.result.Finished? ==> Fetch(code[pc], [8], 0) == OP_RETURN)
              && (s.Next? ==> Fetch(code[pc], [8], 0) != OP_RETURN)
  {
    hide Fetch;
  }

  lemma PushRuns(s: Stack, m: Machine, frameLength: nat, rv: Word, rc: Word)
    requires m.s == s && Inv(m) && CanPush(s, frameLength) && m.pending <= frameLength
    ensures var t := PushFrame(s, frameLength, rv, rc);
            Running(t) && Viewable(t) && FramesOf(t) == FramesOf(s) + [t.frame]
              && t.frame == Frame(s.nextBase, frameLength, rv, rc)
  {
    hide ChainOk, Frames, Hygienic, Overwrite;
    CallKeeps(m, frameLength, rv, rc);
  }

  /** The caller's state after a call: the frame records and everything below the callee's frame are as before. */
  ghost predicate CallerRestored(s: Stack, r: Stack) {
    && Ok(s) && Inv(Machine(r, 0, {})) && r.nextBase == s.nextBase && FramesOf(r) == FramesOf(s)
    && (s.nextBase > 0 ==> r.frame == s.frame)
    && (forall i :: 0 <= i < s.nextBase ==> r.words[i] == s.words[i] && r.contexts[i] == s.contexts[i])
  }

  lemma RestoredExactly(s: Stack, r: Stack)
    requires CallerRestored(s, r)
    ensures |r.words| == |s.words| == |r.contexts| == |s.contexts| == STACK_SLOTS && s.nextBase <= STACK_SLOTS
    ensures r.nextBase == s.nextBase && (s.nextBase > 0 ==> r.frame == s.frame)
    ensures forall i :: 0 <= i < s.nextBase ==> r.words[i] == s.words[i] && r.contexts[i] == s.contexts[i]
    ensures forall i :: s.nextBase <= i < STACK_SLOTS ==>
      r.contexts[i] == NoContext || (r.contexts[i].Typed? && r.contexts[i].isReference)
  {
    hide Frames, ChainOk;
  }

  lemma {:induction false} CallEnds(s: Stack, t: Stack, u: Stack, r: Stack)
    requires Ok(s) && Running(t) && t.frame.base == s.nextBase && FramesOf(t) == FramesOf(s) + [t.frame]
    requires Sized(s)
    requires forall i :: 0 <= i < s.nextBase ==> t.words[i] == s.words[i] && t.contexts[i] == s.contexts[i]
    requires s.nextBase > 0 ==> SavedFrame(t.words, t.frame.base) == s.frame
    requires OnlyFrameChanged(t, u) && Ended(u, r)
    ensures CallerRestored(s, r)
  {
    hide Frames, Hygienic, ReservedClean;
    assert s.nextBase > 0 ==> SavedFrame(u.words, u.frame.base) == SavedFrame(t.words, t.frame.base);
    assert (FramesOf(s) + [t.frame])[..|FramesOf(s)|] == FramesOf(s);
  }

  lemma ChangesCompose(t: Stack, u: Stack, v: Stack)
    requires OnlyFrameChanged(t, u) && OnlyFrameChanged(u, v)
    ensures OnlyFrameChanged(t, v) && u.frame == t.frame
  {
    hide ChainOk, Frames;
  }

  /** `cubs_interpreter_execute_function`: a frame is pushed, operations are performed until a return or an
      error, and the frame is gone again. */
  method ExecuteFunction(stack: StackState, host: Host, code: seq<Word>, start: Word, frameLength: nat,
                         returnValueDst: Word, returnContextDst: Word, ghost m: Machine) returns (result: Result)
    requires m.s == stack.State() && Inv(m) && CanPush(stack.State(), frameLength) && m.pending <= frameLength
    requires CodeFits(code, start)
    requires var t := PushFrame(stack.State(), frameLength, returnValueDst, returnContextDst);
             Viewable(t) && RunCode(code, 0, View(t)) != Stuck
             && (GivesValue(RunCode(code, 0, View(t))) ==> returnValueDst != 0 && returnContextDst != 0)
    modifies stack, host
    ensures host.cells == StoreReturn(old(host.cells), returnValueDst, returnContextDst, ReturnedValue(result))
    ensures var s := old(stack.State());
            && result == RunCode(code, 0, View(PushFrame(s, frameLength, returnValueDst, returnContextDst)))
            && CallerRestored(s, stack.State())
  {
    hide Running, Ended, OnlyFrameChanged, View, Execute, RunCode, Fetch, CallerRestored;
    ghost var s := stack.State();
    PushRuns(s, m, frameLength, returnValueDst, returnContextDst);
    stack.PushFrame(frameLength, returnValueDst, returnContextDst);
    ghost var t := stack.State();
    ghost var expected := RunCode(code, 0, View(t));
    stack.ip := start;
    IpIsApart(t, t, start);
    KeptAsIs(t);
    ghost var pc, last := 0, t;
    var err, value := false, None;
    while true
      invariant Running(stack.State()) && Viewable(stack.State()) && OnlyFrameChanged(t, stack.State())
      invariant stack.ip == Address(start, pc) && pc <= |code|
      invariant RunCode(code, pc, View(stack.State())) == expected && host.cells == old(host.cells)
      decreases |code| - pc
    {
      ghost var u := stack.State();
      KeptAsIs(u);
      ChangesCompose(t, u, u);
      RunStep(code, pc, View(u));
      ReturnsStop(code, pc, View(u));
      var at := (stack.ip - start) / 8;
      var isReturn := Fetch(code[at], [8], 0) == OP_RETURN;
      err, value := ExecuteOperation(stack, host, code, start, at);
      if err || isReturn {
        last := if err then stack.State() else u;
        if err {
          ChangesCompose(t, u, last);
        }
        break;
      }
      ChangesCompose(t, u, stack.State());
      pc := pc + Execute(code, pc, View(u)).increment;
    }
    if err {
      EndCurrentFrame(stack);
      result := OverflowError;
    } else {
      result := Finished(value);
    }
    CallEnds(s, t, last, stack.State());
  }
}
