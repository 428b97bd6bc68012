/** Running bytecode inside one frame (src/interpreter/interpreter.c), on the frame's slots as a value. Only
    the operations the compiler emits are here; they never jump back, so a run ends. */
module FrameMachine {
  import opened IntMath
  import opened StackSpec
  import opened Words
  import opened Options
  import opened CodeGen
  import opened Operations

  /** `CUBS_INT_CONTEXT` */
  const INT_CONTEXT: TypeContext := TypeContext(2, 8)

  /** The slots of the current frame and their contexts. */
  datatype Slots = Slots(words: seq<Word>, contexts: seq<SlotContext>)

  predicate WellSized(m: Slots) {
    |m.words| == |m.contexts|
  }

  /** How running a function ends; `Stuck` covers failed assertions and operations that are not modelled. */
  datatype Result = Finished(value: Option<Word>) | OverflowError | Stuck

  datatype Step = Next(increment: nat, slots: Slots) | Stop(result: Result)

  predicate IsInt(m: Slots, i: nat) {
    i < |m.contexts| && m.contexts[i].Typed? && m.contexts[i].context == INT_CONTEXT
  }

  function StoreInt(m: Slots, dst: nat, w: Word): Slots
    requires WellSized(m) && dst < |m.words|
  {
    Slots(m.words[dst := w], m.contexts[dst := Typed(INT_CONTEXT, false)])
  }

  /** `execute_load`, immediate long form. */
  function ExecuteLoad(code: seq<Word>, pc: nat, m: Slots, tag: nat, dst: nat): Step
    requires WellSized(m)
  {
    if tag == VALUE_TAG_INT && pc + 1 < |code| && dst < |m.words| then Next(2, StoreInt(m, dst, code[pc + 1]))
    else Stop(Stuck)
  }

  /** `execute_add` with a destination, on integers. */
  function ExecuteAdd(m: Slots, canOverflow: bool, dst: nat, src1: nat, src2: nat): Step
    requires WellSized(m)
  {
    if !IsInt(m, src1) || src2 >= |m.words| then Stop(Stuck)
    else
      var a, b := ToInt(m.words[src1]), ToInt(m.words[src2]);
      if canOverflow then Stop(Stuck)
      else if WouldAddOverflow(a, b) then Stop(OverflowError)
      else if dst >= |m.words| then Stop(Stuck)
      else Next(1, StoreInt(m, dst, ToWord(a + b)))
  }

  /** `execute_return`, for a caller that wants the value. */
  function ExecuteReturn(m: Slots, hasReturn: bool, src: nat): Step
    requires WellSized(m)
  {
    if !hasReturn then Stop(Finished(None))
    else if IsInt(m, src) then Stop(Finished(Some(m.words[src])))
    else Stop(Stuck)
  }

  /** `cubs_interpreter_execute_operation` */
  function Execute(code: seq<Word>, pc: nat, m: Slots): Step
    requires WellSized(m) && pc < |code|
  {
    match Decode(code[pc])
    case LoadImmediateLong(tag, dst) => ExecuteLoad(code, pc, m, tag, dst)
    case Return(hasReturn, src) => ExecuteReturn(m, hasReturn, src)
    case AddDst(canOverflow, dst, src1, src2) => ExecuteAdd(m, canOverflow, dst, src1, src2)
    case Other => Stop(Stuck)
  }

  lemma ExecuteAdvances(code: seq<Word>, pc: nat, m: Slots)
    requires WellSized(m) && pc < |code|
    ensures var s := Execute(code, pc, m);
            s.Next? ==> pc < pc + s.increment <= |code| && WellSized(s.slots) && |s.slots.words| == |m.words|
  {
    hide Decode;
  }

  /** `interpreter_execute_continuous` */
  function RunCode(code: seq<Word>, pc: nat, m: Slots): Result
    requires WellSized(m)
    decreases |code| - pc
  {
    if pc >= |code| then Stuck
    else
      ExecuteAdvances(code, pc, m);
      match Execute(code, pc, m)
      case Stop(r) => r
      case Next(n, next) => RunCode(code, pc + n, next)
  }

  // ---- Fragments of emitted code ----

  /** The code has this fragment at `pc`. */
  predicate At(code: seq<Word>, pc: nat, fragment: seq<Word>) {
    pc + |fragment| <= |code| && code[pc..pc + |fragment|] == fragment
  }

  lemma AtSplit(code: seq<Word>, pc: nat, first: seq<Word>, rest: seq<Word>)
    requires At(code, pc, first + rest)
    ensures At(code, pc, first) && At(code, pc + |first|, rest)
  {
    var both := first + rest;
    assert code[pc..pc + |first|] == both[..|first|];
    assert code[pc + |first|..pc + |both|] == both[|first|..];
  }

  lemma {:induction false} RunLoad(code: seq<Word>, pc: nat, m: Slots, dst: nat, v: Int64)
    requires WellSized(m) && dst <= MAX_FRAME_LENGTH && dst < |m.words| && At(code, pc, EmitLoad(dst, v))
    ensures WellSized(StoreInt(m, dst, ToWord(v)))
    ensures RunCode(code, pc, m) == RunCode(code, pc + 2, StoreInt(m, dst, ToWord(v)))
  {
    var load := EmitLoad(dst, v);
    DecodeLoad(VALUE_TAG_INT, dst, ToWord(v));
    assert code[pc] == code[pc..pc + 2][0] && code[pc + 1] == code[pc..pc + 2][1];
    hide Decode, MakeLoadImmediateLong;
    assert Execute(code, pc, m) == Next(2, StoreInt(m, dst, ToWord(v)));
  }

  lemma {:induction false} RunAdd(code: seq<Word>, pc: nat, m: Slots, dst: nat, src1: nat, src2: nat)
    requires WellSized(m) && dst <= MAX_FRAME_LENGTH && src1 <= MAX_FRAME_LENGTH && src2 <= MAX_FRAME_LENGTH
    requires dst < |m.words| && src2 < |m.words| && IsInt(m, src1)
    requires At(code, pc, [MakeAddDst(false, dst, src1, src2)])
    ensures var a, b := ToInt(m.words[src1]), ToInt(m.words[src2]);
            RunCode(code, pc, m) == if Fits(a + b) then RunCode(code, pc + 1, StoreInt(m, dst, ToWord(a + b)))
              else OverflowError
  {
    DecodeAdd(false, dst, src1, src2);
    assert code[pc] == code[pc..pc + 1][0];
    hide Decode, MakeAddDst;
    assert Execute(code, pc, m) == ExecuteAdd(m, false, dst, src1, src2);
  }

  lemma {:induction false} RunReturn(code: seq<Word>, pc: nat, m: Slots, hasReturn: bool, src: nat)
    requires WellSized(m) && src < 8192 && At(code, pc, EmitReturn(hasReturn, src))
    requires hasReturn ==> IsInt(m, src)
    ensures RunCode(code, pc, m) == Finished(if hasReturn then Some(m.words[src]) else None)
  {
    DecodeReturn(hasReturn, src);
    assert code[pc] == code[pc..pc + 1][0];
    hide Decode, MakeReturn;
    assert Execute(code, pc, m) == ExecuteReturn(m, hasReturn, src);
  }
}
