/** From source to result on the real stack: arguments are pushed, the compiled code is executed, and the
    outcome is the one the source means (src/program/function_call_args.c, src/interpreter/interpreter.c). */
module ScriptCall {
  import opened IntMath
  import opened StackSpec
  import opened Words
  import opened Values
  import opened StackRuns
  import opened Options
  import opened Language
  import opened CodeGen
  import opened FrameMachine
  import opened CompilerCorrect
  import opened InterpreterStack
  import opened Interpreter
  import Parser
  import Tokens

  /** The slot the next frame will have at `k` holds this integer. */
  ghost predicate HasArg(s: Stack, k: nat, x: Int64)
    requires Sized(s) && s.nextBase + RESERVED_SLOTS + k < STACK_SLOTS
  {
    && s.words[s.nextBase + RESERVED_SLOTS + k] == ToWord(x)
    && s.contexts[s.nextBase + RESERVED_SLOTS + k] == Typed(INT_CONTEXT, false)
  }

  /** The first `n` arguments lie where the next frame will have its first slots. */
  ghost predicate Pushed(s: Stack, args: seq<Int64>, n: nat) {
    && Sized(s) && n <= |args| && s.nextBase + RESERVED_SLOTS + n <= STACK_SLOTS
    && forall k :: 0 <= k < n ==> HasArg(s, k, args[k])
  }

  /** Arguments are pushed above everything that is in use. */
  ghost predicate OnlyAbove(s: Stack, r: Stack) {
    && Ok(s) && Ok(r) && r.nextBase == s.nextBase && r.frame == s.frame && FramesOf(r) == FramesOf(s)
    && forall i :: 0 <= i < s.nextBase ==> r.words[i] == s.words[i] && r.contexts[i] == s.contexts[i]
  }

  function IntValue(v: Int64): Value {
    Value(INT_CONTEXT, [ToWord(v)])
  }

  /** Every argument has one slot. */
  function FirstSlots(n: nat): set<nat> {
    if n == 0 then {} else FirstSlots(n - 1) + {n - 1}
  }

  /** Pushing an integer stores one word and its type. */
  lemma PutInt(t: Stack, n: nat, x: Int64)
    requires Sized(t) && t.nextBase + RESERVED_SLOTS + n + 1 <= STACK_SLOTS
    ensures ValueOk(IntValue(x)) && SlotsOf(INT_CONTEXT) == 1
    ensures var at := t.nextBase + RESERVED_SLOTS + n;
            PutArg(t, n, IntValue(x))
              == t.(words := t.words[at := ToWord(x)], contexts := t.contexts[at := Typed(INT_CONTEXT, false)])
  {
    var at, v := t.nextBase + RESERVED_SLOTS + n, IntValue(x);
    assert CopyIn(v, t.words[at..at + 1]) == [ToWord(x)];
    assert StoreValue(t.words, at, v) == t.words[at := ToWord(x)];
    assert PutContext(t.contexts, at, INT_CONTEXT, false) == t.contexts[at := Typed(INT_CONTEXT, false)];
  }

  lemma PushedMore(t: Stack, r: Stack, args: seq<Int64>, n: nat, at: nat)
    requires Pushed(t, args, n) && n < |args| && at == t.nextBase + RESERVED_SLOTS + n < STACK_SLOTS
    requires r.nextBase == t.nextBase && r.words == t.words[at := ToWord(args[n])]
    requires r.contexts == t.contexts[at := Typed(INT_CONTEXT, false)]
    ensures Pushed(r, args, n + 1)
    ensures forall i :: 0 <= i < t.nextBase ==> r.words[i] == t.words[i] && r.contexts[i] == t.contexts[i]
  {
    hide ToWord;
    forall k | 0 <= k < n + 1 ensures HasArg(r, k, args[k]) {
      assert k < n ==> HasArg(t, k, args[k]);
    }
  }

  lemma PutKeepsInv(t: Stack, n: nat, v: Value)
    requires Inv(Machine(t, n, FirstSlots(n))) && ValueOk(v) && |v.words| == 1
    requires t.nextBase + RESERVED_SLOTS + n + 1 <= STACK_SLOTS
    ensures var r := PutArg(t, n, v); Inv(Machine(r, n + 1, FirstSlots(n + 1))) && FramesOf(r) == FramesOf(t)
  {
    var m := Machine(t, n, FirstSlots(n));
    PutArgKeeps(m, v);
    hide ChainOk, Frames, Hygienic, PutArg, ValueOk;
    assert After(m, PushArg(v)) == Machine(PutArg(t, n, v), n + 1, FirstSlots(n + 1));
  }

  lemma {:induction false} PushOne(s: Stack, t: Stack, args: seq<Int64>, n: nat)
    requires Inv(Machine(t, n, FirstSlots(n))) && Pushed(t, args, n) && n < |args| && OnlyAbove(s, t)
    requires t.nextBase + RESERVED_SLOTS + n + 1 <= STACK_SLOTS
    ensures ValueOk(IntValue(args[n])) && SlotsOf(INT_CONTEXT) == 1
    ensures var r := PutArg(t, n, IntValue(args[n]));
            Inv(Machine(r, n + 1, FirstSlots(n + 1))) && Pushed(r, args, n + 1) && OnlyAbove(s, r)
  {
    PutInt(t, n, args[n]);
    PutKeepsInv(t, n, IntValue(args[n]));
    var r := PutArg(t, n, IntValue(args[n]));
    PushedMore(t, r, args, n, t.nextBase + RESERVED_SLOTS + n);
    hide ChainOk, Frames, Hygienic, PutArg, Pushed, ToWord;
  }

  /** `cubs_function_push_arg` for every argument of a script function. */
  method PushArguments(stack: StackState, args: seq<Int64>)
    requires Inv(Machine(stack.State(), 0, {})) && stack.nextBase + RESERVED_SLOTS + |args| <= STACK_SLOTS
    modifies stack`words, stack`contexts
    ensures Inv(Machine(stack.State(), |args|, FirstSlots(|args|))) && Pushed(stack.State(), args, |args|)
    ensures OnlyAbove(old(stack.State()), stack.State())
  {
    hide Inv, Hygienic, Frames, ChainOk;
    ghost var s := stack.State();
    NothingPushed(s, args);
    for i := 0 to |args|
      invariant Inv(Machine(stack.State(), i, FirstSlots(i))) && Pushed(stack.State(), args, i)
        && OnlyAbove(s, stack.State())
    {
      PushOne(s, stack.State(), args, i);
      stack.PushScriptArg(IntValue(args[i]), i);
    }
  }

  lemma NothingPushed(s: Stack, args: seq<Int64>)
    requires Inv(Machine(s, 0, {})) && s.nextBase + RESERVED_SLOTS <= STACK_SLOTS
    ensures Inv(Machine(s, 0, FirstSlots(0))) && Pushed(s, args, 0) && OnlyAbove(s, s)
  {
  }

  /** The pushed arguments are the new frame's first slots. */
  lemma {:induction false} FrameStartsWith(s: Stack, args: seq<Int64>, frameLength: nat, rv: Word, rc: Word)
    requires Pushed(s, args, |args|) && CanPush(s, frameLength) && |args| <= frameLength
    ensures var t := PushFrame(s, frameLength, rv, rc);
            Viewable(t) && |View(t).words| == frameLength && StartsWith(View(t), args)
  {
    hide Overwrite;
    var t := PushFrame(s, frameLength, rv, rc);
    forall k | 0 <= k < |args| ensures HoldsInt(View(t), k, args[k]) {
      assert HasArg(s, k, args[k]);
      assert t.words[s.nextBase + RESERVED_SLOTS + k] == s.words[s.nextBase + RESERVED_SLOTS + k];
    }
  }

  lemma {:induction false} RestoredThrough(s: Stack, t: Stack, r: Stack)
    requires OnlyAbove(s, t) && CallerRestored(t, r)
    ensures CallerRestored(s, r)
  {
    hide ChainOk, Frames, Hygienic, ReservedClean;
  }

  lemma NeverStuck(o: Outcome)
    ensures ResultOf(o) != Stuck && (GivesValue(ResultOf(o)) <==> o.Returned?)
    ensures ResultOf(o) == match o
                           case Returned(v) => Finished(Some(ToWord(v)))
                           case ReturnedNothing => Finished(None)
                           case AdditionOverflow => OverflowError
    ensures ReturnedValue(ResultOf(o)) == match o case Returned(v) => Some(ToWord(v)) case _ => None
  {
  }

  /** Calling a compiled function with any arguments, at any point of any run: the result is the one the
      source means, and the caller finds its frames, its slots and their owners as they were. */
  method CallScript(stack: StackState, host: Host, ghost f: Function, compiled: Compiled, start: Word, args: seq<Int64>,
                    returnValueDst: Word, returnContextDst: Word) returns (result: Result)
    requires FunctionScoped(f) && |args| == |f.params| && Compile(f) == Some(compiled)
    requires Inv(Machine(stack.State(), 0, {})) && CanPush(stack.State(), compiled.frameLength)
    requires CodeFits(compiled.code, start)
    requires Meaning(f, args).Returned? ==> returnValueDst != 0 && returnContextDst != 0
    modifies stack, host
    ensures result == match Meaning(f, args)
                      case Returned(v) => Finished(Some(ToWord(v)))
                      case ReturnedNothing => Finished(None)
                      case AdditionOverflow => OverflowError
    ensures host.cells == StoreReturn(old(host.cells), returnValueDst, returnContextDst, ReturnedValue(result))
    ensures
      match Meaning(f, args)
        case Returned(v) =>
          && returnContextDst in host.cells && host.cells[returnContextDst] == TypeCell(INT_CONTEXT)
          && (returnValueDst != returnContextDst ==>
                returnValueDst in host.cells && host.cells[returnValueDst] == ValueCell(ToWord(v)))
          && (forall a :: a != returnValueDst && a != returnContextDst ==>
                && (a in host.cells <==> a in old(host.cells))
                && (a in host.cells ==> host.cells[a] == old(host.cells)[a]))
        case _ => host.cells == old(host.cells)
    ensures CallerRestored(old(stack.State()), stack.State())
  {
    hide Inv, Pushed, OnlyAbove, CallerRestored, View, Viewable, RunCode, Compile, Meaning, FunctionScoped,
      StartsWith, ResultOf;
    ghost var s := stack.State();
    ArgumentsFit(f, compiled);
    PushArguments(stack, args);
    ghost var t := stack.State();
    SameRoom(s, t, compiled.frameLength);
    FrameStartsWith(t, args, compiled.frameLength, returnValueDst, returnContextDst);
    CompilationPreservesMeaning(f, args,
      View(StackSpec.PushFrame(t, compiled.frameLength, returnValueDst, returnContextDst)));
    NeverStuck(Meaning(f, args));
    ghost var m := Machine(t, |args|, FirstSlots(|args|));
    result := ExecuteFunction(stack, host, compiled.code, start, compiled.frameLength, returnValueDst,
      returnContextDst, m);
    RestoredThrough(s, t, stack.State());
  }

  lemma {:induction false} ArgumentsFit(f: Function, compiled: Compiled)
    requires FunctionScoped(f) && Compile(f) == Some(compiled)
    ensures |f.params| <= compiled.frameLength
  {
    hide Compile;
    ElabFunctionOf(f);
  }

  lemma SameRoom(s: Stack, t: Stack, frameLength: nat)
    requires OnlyAbove(s, t) && CanPush(s, frameLength)
    ensures CanPush(t, frameLength)
  {
  }

  /** The tokens of a function parsed, compiled and run: where every name is declared before its use, the
      result is the meaning of the function, unless the compiler refuses it. */
  method RunTokens(tokens: seq<Tokens.Token>, stack: StackState, host: Host, start: Word, args: seq<Int64>,
                   returnValueDst: Word, returnContextDst: Word,
                   ghost f: Function, ghost name: string, ghost returnsInt: bool, ghost mutable: seq<bool>)
    returns (result: Option<Result>)
    requires |mutable| == |f.body| && tokens == Tokens.FunctionTokens(f, name, returnsInt, mutable)
    requires FunctionScoped(f) && |args| == |f.params|
    requires Inv(Machine(stack.State(), 0, {}))
    requires Compile(f).Some?
      ==> CanPush(stack.State(), Compile(f).value.frameLength) && CodeFits(Compile(f).value.code, start)
    requires Meaning(f, args).Returned? ==> returnValueDst != 0 && returnContextDst != 0
    modifies stack, host
    ensures Compile(f).None? <==> result.None?
    ensures result.None? ==> host.cells == old(host.cells) && stack.State() == old(stack.State())
    ensures result.Some? ==>
      match Meaning(f, args)
        case Returned(v) =>
          && returnContextDst in host.cells && host.cells[returnContextDst] == TypeCell(INT_CONTEXT)
          && (returnValueDst != returnContextDst ==>
                returnValueDst in host.cells && host.cells[returnValueDst] == ValueCell(ToWord(v)))
          && (forall a :: a != returnValueDst && a != returnContextDst ==>
                && (a in host.cells <==> a in old(host.cells))
                && (a in host.cells ==> host.cells[a] == old(host.cells)[a]))
        case _ => host.cells == old(host.cells)
    ensures result.Some? ==>
      && result.value == (match Meaning(f, args)
                          case Returned(v) => Finished(Some(ToWord(v)))
                          case ReturnedNothing => Finished(None)
                          case AdditionOverflow => OverflowError)
      && CallerRestored(old(stack.State()), stack.State())
  {
    hide Inv, CallerRestored, Compile, Meaning, FunctionScoped, ResultOf, Tokens.FunctionTokens;
    var compiled := Parser.CompileTokens(tokens, f, name, returnsInt, mutable);
    if compiled.None? {
      return None;
    }
    var r := CallScript(stack, host, f, compiled.value, start, args, returnValueDst, returnContextDst);
    result := Some(r);
  }
}
