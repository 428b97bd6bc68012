/** The interpreter's stack as the thread-local record it is (src/interpreter/stack.c), each function
    proved against the value-level operation of the same name, and the record that collects the
    arguments of a call (src/program/function_call_args.c). */
module InterpreterStack {
  import opened StackSpec
  import opened Words
  import opened Values
  import opened StackRuns
  import opened CallArgs

  class StackState {
    var words: seq<Word>
    var contexts: seq<SlotContext>
    var nextBase: nat
    var frame: Frame
    var ip: Word

    ghost function State(): Stack
      reads this
    {
      Stack(words, contexts, nextBase, frame, ip)
    }

    constructor ()
      ensures State() == Fresh()
    {
      words := seq(STACK_SLOTS, _ => 0);
      contexts := seq(STACK_SLOTS, _ => NoContext);
      nextBase := 0;
      frame := Frame(0, 0, 0, 0);
      ip := 0;
    }

    /** The four stores of the reserved slots, one by one. */
    method PushFrame(frameLength: nat, returnValueDst: Word, returnContextDst: Word)
      requires CanPush(State(), frameLength)
      modifies this
      ensures State() == StackSpec.PushFrame(old(State()), frameLength, returnValueDst, returnContextDst)
    {
      var b := nextBase;
      if nextBase == 0 {
        words := words[b := 0];
        words := words[b + 1 := 0];
        words := words[b + 2 := 0];
        words := words[b + 3 := 0];
      } else {
        words := words[b := ip];
        words := words[b + 1 := frame.length];
        words := words[b + 2 := frame.returnValueDst];
        words := words[b + 3 := frame.returnContextDst];
      }
      assert words == Overwrite(old(words), b, SavedWords(old(State())));
      frame := Frame(nextBase, frameLength, returnValueDst, returnContextDst);
      nextBase := nextBase + frameLength + RESERVED_SLOTS;
    }

    method PopFrame()
      requires Ok(State()) && nextBase != 0
      modifies this`nextBase, this`frame
      ensures State() == (PopRefines(old(State())); StackSpec.PopFrame(old(State())))
    {
      PopRefines(State());
      nextBase := nextBase - (frame.length + RESERVED_SLOTS);
      if nextBase == 0 {
        return;
      }
      var b := frame.base;
      var oldLength, oldValueDst, oldContextDst := words[b + 1], words[b + 2], words[b + 3];
      frame := Frame(nextBase - oldLength - RESERVED_SLOTS, oldLength, oldValueDst, oldContextDst);
    }

    /** Stores a context and clears those of the further slots the value covers. */
    method PutContextAt(at: nat, c: TypeContext, isReference: bool)
      requires at + ClearedAfter(c) < |contexts|
      modifies this`contexts
      ensures contexts == PutContext(old(contexts), at, c, isReference)
    {
      contexts := contexts[at := Typed(c, isReference)];
      if c.sizeOfType > 8 {
        for i := 1 to c.sizeOfType / 8
          invariant |contexts| == |old(contexts)| && contexts[at] == Typed(c, isReference)
          invariant forall k :: 0 <= k < |contexts| && k != at ==>
            contexts[k] == if at < k < at + i then NoContext else old(contexts)[k]
        {
          contexts := contexts[at + i := NoContext];
        }
      }
      assert contexts == PutContext(old(contexts), at, c, isReference);
    }

    method SetContextAt(offset: nat, c: TypeContext, isReference: bool)
      requires Sized(State()) && ContextChecks(State(), offset, c)
      requires SlotIndex(State(), offset) + ClearedAfter(c) < STACK_SLOTS
      modifies this`contexts
      ensures State() == SetContext(old(State()), offset, c, isReference)
    {
      PutContextAt(frame.base + offset + RESERVED_SLOTS, c, isReference);
    }

    method SetNullContextAt(offset: nat)
      requires Sized(State()) && SlotIndex(State(), offset) < STACK_SLOTS
      modifies this`contexts
      ensures State() == SetNullContext(old(State()), offset)
    {
      contexts := contexts[frame.base + offset + RESERVED_SLOTS := NoContext];
    }

    /** Runs the destructor of every owned value of the frame; `destroyed` lists those calls. */
    method UnwindFrame() returns (destroyed: seq<(nat, TypeContext)>)
      requires Sized(State()) && SlotIndex(State(), frame.length) <= STACK_SLOTS
      modifies this`contexts
      ensures State() == Unwind(old(State()))
      ensures destroyed == Destroyed(old(contexts), SlotIndex(old(State()), 0), frame.length)
    {
      destroyed := [];
      var start := frame.base + RESERVED_SLOTS;
      for i := 0 to frame.length
        invariant contexts == UnwoundContexts(old(contexts), start, i)
        invariant destroyed == Destroyed(old(contexts), start, i)
      {
        var c := contexts[start + i];
        if Owning(c) {
          destroyed := destroyed + [(i, c.context)];
          SetNullContextAt(i);
        }
      }
    }

    /** `cubs_interpreter_push_script_function_arg`. */
    method PushScriptArg(v: Value, offset: nat)
      requires Sized(State()) && ValueOk(v) && |v.words| > 0 && ArgBase(State()) + offset + |v.words| <= STACK_SLOTS
      modifies this`words, this`contexts
      ensures State() == PutArg(old(State()), offset, v)
    {
      hide CopyIn, PutContext, Overwrite;
      var at := nextBase + RESERVED_SLOTS + offset;
      words := Overwrite(words, at, CopyIn(v, words[at..at + |v.words|]));
      PutContextAt(at, v.context, false);
    }

    /** Carries the tracker up if there is one already, and copies the value in below it. */
    method MoveAndStore(v: Value, at: nat, count: nat, moving: bool)
      requires ValueOk(v) && at + |v.words| + 2 + count / 4 < |words|
      modifies this`words
      ensures words == StoreValue(if moving then MoveTracker(old(words), at, at + |v.words|, count)
        else old(words), at, v)
    {
      hide CopyIn, CopyOut, Overwrite;
      var track := at + SlotsOf(v.context);
      if moving {
        words := Overwrite(words, track, words[at..at + 1 + (1 + count / 4)]);
      }
      words := Overwrite(words, at, CopyIn(v, words[at..track]));
    }

    /** Brings the tracker's count and the argument's 16-bit offset up to date. */
    method UpdateTracker(track: nat, count: nat, offset: nat)
      requires track + 2 + count / 4 <= |words| && count < TWO_64 - 1 && offset < 0x1_0000
      modifies this`words
      ensures words == CountArg(old(words), track, count, offset)
    {
      hide SetLane;
      words := words[track := count + 1];
      var lane := track + 1 + count / 4;
      words := words[lane := SetLane(words[lane], count % 4, offset)];
    }

    /** `cubs_interpreter_push_c_function_arg`. */
    method PushCArg(v: Value, offset: nat, currentArgCount: nat, argTrackOffset: nat)
      requires CanPushArg(State(), v, offset, currentArgCount) && argTrackOffset == offset
      modifies this`words, this`contexts
      ensures State() == CallArgs.PushCArg(old(State()), v, offset, currentArgCount)
    {
      hide CountArg, StoreValue, PutContext, MoveTracker;
      var at := nextBase + RESERVED_SLOTS + offset;
      MoveAndStore(v, at, currentArgCount, argTrackOffset > 0);
      UpdateTracker(at + SlotsOf(v.context), currentArgCount, offset);
      CoversItself(v.context);
      PutContextAt(at, v.context, false);
    }

    /** `cubs_function_take_arg`. */
    method TakeArg(argCount: nat, offsetForArgs: nat, argIndex: nat) returns (v: Value)
      requires CanTake(State(), argCount, offsetForArgs, argIndex)
      modifies this`contexts
      ensures TakenValue(old(State()), argCount, offsetForArgs, argIndex) == (State(), v)
    {
      var positions := frame.base + RESERVED_SLOTS + offsetForArgs + 1;
      var position := Lane(words[positions + argIndex / 4], argIndex % 4);
      var at := frame.base + RESERVED_SLOTS + position;
      var c := contexts[at].context;
      v := Value(c, CopyOut(c, words[at..at + SlotsOf(c)]));
      SetNullContextAt(position);
    }
  }

  /** The slots cleared after the first are slots of the value. */
  lemma CoversItself(c: TypeContext)
    ensures SlotsOf(c) > 0 ==> ClearedAfter(c) < SlotsOf(c)
  {
  }

  lemma {:induction false} OffsetsOfFirst(args: seq<Value>, v: Value, i: nat)
    requires i <= |args|
    ensures OffsetOf(args + [v], i) == OffsetOf(args, i)
  {
    if i > 0 {
      OffsetsOfFirst(args, v, i - 1);
    }
  }

  lemma {:induction false} OneMoreOk(args: seq<Value>, v: Value)
    requires ValuesOk(args) && ValueOk(v) && |v.words| > 0
    ensures ValuesOk(args + [v])
  {
    hide ValueOk;
  }

  lemma {:induction false} SameArgs(s: Stack, base: nat, args: seq<Value>, v: Value)
    requires ArgsAt(s, base, args, |args|, {})
    ensures ArgsAt(s, base, args + [v], |args|, {})
  {
    hide ArgAt, OffsetOf;
    var more := args + [v];
    forall i | 0 <= i < |args| ensures ArgAt(s, base + OffsetOf(more, i), more[i]) {
      OffsetsOfFirst(args, v, i);
      assert i !in {} && ArgAt(s, base + OffsetOf(args, i), args[i]);
    }
  }

  lemma {:induction false} SameTracker(words: seq<Word>, track: nat, args: seq<Value>, v: Value)
    requires TrackerAt(words, track, args, |args|)
    ensures TrackerAt(words, track, args + [v], |args|)
  {
    hide Lane, OffsetOf;
    var more := args + [v];
    forall i | 0 <= i < |args| ensures Lane(words[track + 1 + i / 4], i % 4) == OffsetOf(more, i) {
      OffsetsOfFirst(args, v, i);
    }
  }

  /** One more argument to come changes nothing about those in place. */
  lemma {:induction false} OneMoreToCome(s: Stack, base: nat, args: seq<Value>, v: Value)
    requires Holding(s, base, args, |args|, {}) && ValueOk(v) && |v.words| > 0
    ensures Holding(s, base, args + [v], |args|, {})
  {
    hide ArgsAt, ValueOk, TrackerAt, ValuesOk, OffsetOf;
    OffsetsOfFirst(args, v, |args|);
    OneMoreOk(args, v);
    SameArgs(s, base, args, v);
    if args != [] {
      SameTracker(s.words, base + OffsetOf(args, |args|), args, v);
    }
  }

  lemma {:induction false} BuildingStep(s: Stack, args: seq<Value>, v: Value)
    requires Holding(s, ArgBase(s), args, |args|, {}) && CanPushArg(s, v, OffsetOf(args, |args|), |args|)
    ensures var r := CallArgs.PushCArg(s, v, OffsetOf(args, |args|), |args|);
            var more := args + [v];
            Holding(r, ArgBase(r), more, |more|, {})
              && OffsetOf(more, |more|) == OffsetOf(args, |args|) + SlotsOf(v.context)
  {
    hide Holding, CallArgs.PushCArg;
    OneMoreToCome(s, ArgBase(s), args, v);
    OffsetsOfFirst(args, v, |args|);
    PushKeepsAll(s, args + [v], |args|);
  }

  lemma NothingPushed(s: Stack)
    requires Sized(s) && ArgBase(s) <= STACK_SLOTS
    ensures Holding(s, ArgBase(s), [], 0, {})
  {
  }

  /** `CubsFunctionCallArgs` for a C function: the offset and count so far are its `_inner` words. */
  class CallBuilder {
    const stack: StackState
    var offset: nat
    var count: nat
    ghost var args: seq<Value>

    /** `args` are the arguments pushed so far: they lie where the next frame will have its slots, and offset
        and count are theirs. */
    ghost predicate Building()
      reads this, stack
    {
      count == |args| && offset == OffsetOf(args, count)
        && Holding(stack.State(), ArgBase(stack.State()), args, count, {})
    }

    constructor (stack: StackState)
      requires Sized(stack.State()) && ArgBase(stack.State()) <= STACK_SLOTS
      ensures this.stack == stack && args == [] && Building()
    {
      this.stack := stack;
      offset, count, args := 0, 0, [];
      new;
      NothingPushed(stack.State());
    }

    method PushArg(v: Value)
      requires Building() && CanPushArg(stack.State(), v, offset, count)
      modifies this, stack`words, stack`contexts
      ensures Building() && args == old(args) + [v]
      ensures stack.State() == CallArgs.PushCArg(old(stack.State()), v, old(offset), old(count))
    {
      hide Holding, CallArgs.PushCArg, OffsetOf, CanPushArg, ValueOk, SlotsOf, ArgBase;
      BuildingStep(stack.State(), args, v);
      stack.PushCArg(v, offset, count, offset);
      offset := offset + SlotsOf(v.context);
      count := count + 1;
      args := args + [v];
    }

    /** The C side of `cubs_function_call`, up to the call of the function. */
    method EnterCall(returnValueDst: Word, returnContextDst: Word)
      requires Building() && CanPush(stack.State(), offset)
      modifies stack
      ensures stack.State() == StackSpec.PushFrame(old(stack.State()), offset, returnValueDst, returnContextDst)
      ensures Holding(stack.State(), SlotIndex(stack.State(), 0), args, |args|, {})
    {
      CallKeepsArgs(stack.State(), args, returnValueDst, returnContextDst);
      hide Holding, OffsetOf;
      stack.PushFrame(offset, returnValueDst, returnContextDst);
    }
  }
}
