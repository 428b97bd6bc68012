/** When does a returned value damage the frames (src/interpreter/interpreter.c:145-163)? `execute_return`
    copies all bytes of the value to the caller's slot before the pop reads the words saved below the
    callee, and only checks that the first slot is in the caller's frame. */
module ReturnedValues {
  import opened StackSpec
  import opened Words
  import opened Values
  import opened StackRuns

  /** Whatever value of the type is stored at `at`, the words from `lo` to `hi` stay as they are. */
  ghost predicate KeepsWords(words: seq<Word>, at: nat, c: TypeContext, lo: nat, hi: nat)
    requires at + SlotsOf(c) <= |words| && lo <= hi <= |words|
  {
    forall v: Value :: ValueOk(v) && v.context == c ==> StoreValue(words, at, v)[lo..hi] == words[lo..hi]
  }

  /** A word that differs from another in its lowest byte. */
  function Other(w: Word): (r: Word)
    ensures r <= 1 && r % 0x100 != w % 0x100
  {
    if w % 0x100 == 0 then 1 else 0
  }

  function Others(words: seq<Word>): (r: seq<Word>)
    ensures |r| == |words| && forall i :: 0 <= i < |words| ==> r[i] == Other(words[i])
  {
    if words == [] then [] else Others(words[..|words| - 1]) + [Other(words[|words| - 1])]
  }

  lemma LowOfBit(w: Word, r: nat)
    requires w <= 1 && r > 0
    ensures LowBytes(w, r) == w
  {
    ZeroLow(r - 1);
  }

  lemma {:induction false} ZeroLow(r: nat)
    ensures LowBytes(0, r) == 0
  {
    if r > 0 {
      ZeroLow(r - 1);
    }
  }

  /** A value that changes every word it is stored over. */
  function Disturbing(words: seq<Word>, at: nat, c: TypeContext): (v: Value)
    requires at + SlotsOf(c) <= |words|
    ensures ValueOk(v) && v.context == c
    ensures forall i :: 0 <= i < |v.words| ==> v.words[i] == Other(words[at + i])
  {
    var ws := Others(words[at..at + SlotsOf(c)]);
    if c.sizeOfType % 8 != 0 then LowOfBit(ws[|ws| - 1], c.sizeOfType % 8); Value(c, ws) else Value(c, ws)
  }

  /** The first `r` bytes of a word stored over another show in its lowest byte. */
  lemma MergeDiffers(low: Word, high: Word, r: nat)
    requires r > 0 && low % 0x100 != high % 0x100
    ensures Merge(low, high, r) != high
  {
  }

  lemma {:induction false} Disturbed(words: seq<Word>, at: nat, c: TypeContext, k: nat)
    requires at + SlotsOf(c) <= |words| && at <= k < at + SlotsOf(c)
    ensures StoreValue(words, at, Disturbing(words, at, c))[k] != words[k]
  {
    hide Disturbing, Merge, Other, LowBytes;
    var v := Disturbing(words, at, c);
    var was := words[at..at + |v.words|];
    assert was[k - at] == words[k] && v.words[k - at] == Other(words[k]);
    if c.sizeOfType % 8 != 0 && k - at == |was| - 1 {
      MergeDiffers(v.words[k - at], words[k], c.sizeOfType % 8);
    }
    assert StoreValue(words, at, v)[k] == CopyIn(v, was)[k - at];
  }

  lemma {:induction false} KeepsWordsExactly(words: seq<Word>, at: nat, c: TypeContext, lo: nat, hi: nat)
    requires at + SlotsOf(c) <= |words| && at <= lo < hi <= |words|
    ensures KeepsWords(words, at, c, lo, hi) <==> at + SlotsOf(c) <= lo
  {
    hide StoreValue, Disturbing, LowBytes, CopyOut;
    if at + SlotsOf(c) <= lo {
      forall v: Value | ValueOk(v) && v.context == c ensures StoreValue(words, at, v)[lo..hi] == words[lo..hi] {
        StoredValue(words, at, v);
      }
    } else {
      var v := Disturbing(words, at, c);
      Disturbed(words, at, c, lo);
      assert StoreValue(words, at, v)[lo..hi][0] != words[lo..hi][0];
    }
  }

  lemma CallerEnds(s: Stack)
    requires Ok(s) && s.nextBase != 0 && s.frame.base > 0
    ensures var b := s.frame.base; var caller := SavedFrame(s.words, b);
            b == caller.base + RESERVED_SLOTS + caller.length && b + 4 <= STACK_SLOTS == |s.words|
    ensures s.words[s.frame.base + 1] + RESERVED_SLOTS <= s.frame.base
  {
  }

  /** A returned value of any content leaves the four words saved below the callee alone if and only if it
      fits the caller's frame. One word more only overwrites the saved instruction pointer, which no pop
      restores; beyond that the length and return destinations that the pop gives the caller are the
      value's own words. */
  lemma {:induction false} ReturnFitsExactly(s: Stack, dst: nat, c: TypeContext)
    requires Ok(s) && s.nextBase != 0 && s.frame.base > 0 && dst < SavedFrame(s.words, s.frame.base).length
    requires SavedFrame(s.words, s.frame.base).base + RESERVED_SLOTS + dst + SlotsOf(c) <= STACK_SLOTS
    ensures var b := s.frame.base; var caller := SavedFrame(s.words, b); var at := caller.base + RESERVED_SLOTS + dst;
            && b + 4 <= |s.words| && at + SlotsOf(c) <= |s.words|
            && (KeepsWords(s.words, at, c, b, b + 4) <==> dst + SlotsOf(c) <= caller.length)
            && (KeepsWords(s.words, at, c, b + 1, b + 4) <==> dst + SlotsOf(c) <= caller.length + 1)
  {
    hide KeepsWords, SlotsOf, Ok, ChainOk, SavedFrame;
    CallerEnds(s);
    var caller := SavedFrame(s.words, s.frame.base);
    FitsExactly(s.words, caller.base + RESERVED_SLOTS, caller.length, dst, c);
  }

  /** The same of a value stored at slot `dst` of `length` slots that start at `low`. */
  lemma {:induction false} FitsExactly(words: seq<Word>, low: nat, length: nat, dst: nat, c: TypeContext)
    requires dst < length && low + length + 4 <= |words| && low + dst + SlotsOf(c) <= |words|
    ensures KeepsWords(words, low + dst, c, low + length, low + length + 4) <==> dst + SlotsOf(c) <= length
    ensures KeepsWords(words, low + dst, c, low + length + 1, low + length + 4) <==> dst + SlotsOf(c) <= length + 1
  {
    hide KeepsWords, SlotsOf;
    KeepsWordsExactly(words, low + dst, c, low + length, low + length + 4);
    KeepsWordsExactly(words, low + dst, c, low + length + 1, low + length + 4);
  }

  // ---- A run that returns too much ----

  ghost function TwoCalls(): Stack
  {
    PushRefines(Fresh(), 1, 0, 0);
    PushFrame(PushFrame(Fresh(), 1, 0, 0), 4, 0, 0)
  }

  lemma TwoCallsOk()
    ensures var s := TwoCalls();
            && Ok(s) && s.frame == Frame(5, 4, 0, 0) && s.nextBase == 13 && s.words[6] == 1
            && SavedFrame(s.words, 5) == Frame(0, 1, 0, 0)
  {
    var s := PushFrame(Fresh(), 1, 0, 0);
    PushRefines(Fresh(), 1, 0, 0);
    PushRefines(s, 4, 0, 0);
    assert s.frame == Frame(0, 1, 0, 0) && s.nextBase == 5;
    assert TwoCalls().words[6] == SavedWords(s)[1];
    assert TwoCalls().words[7] == SavedWords(s)[2];
    assert TwoCalls().words[8] == SavedWords(s)[3];
  }

  /** The frame's third slot is written and its four slots are given one type. */
  ghost function Prepared(c: TypeContext): Stack
    requires c.sizeOfType == 32
  {
    TwoCallsOk();
    SetContext(SetWord(TwoCalls(), 2, 77), 0, c, false)
  }

  lemma PreparedOk(c: TypeContext)
    requires c.sizeOfType == 32
    ensures var s := Prepared(c);
            && Ok(s) && s.frame == Frame(5, 4, 0, 0) && s.nextBase == 13 && s.words[11] == 77
            && s.contexts[9] == Typed(c, false) && SavedFrame(s.words, 5) == Frame(0, 1, 0, 0)
  {
    TwoCallsOk();
    hide TwoCalls, ChainOk, Frames;
    SlotWriteKeepsFrames(TwoCalls(), Prepared(c));
    assert forall i :: 5 <= i < 9 ==> Prepared(c).words[i] == TwoCalls().words[i];
  }

  lemma {:induction false} PreparedRun(c: TypeContext, ops: seq<Op>)
    requires c.sizeOfType == 32
    requires ops == [Call(1, 0, 0), Call(4, 0, 0), WriteSlot(2, 77), WriteContext(0, c, false)]
    ensures IsRun(Machine(Fresh(), 0, {}), ops) && Run(Machine(Fresh(), 0, {}), ops) == Machine(Prepared(c), 0, {})
  {
    var m0 := Machine(Fresh(), 0, {});
    PushRefines(m0.s, 1, 0, 0);
    var m1 := After(m0, ops[0]);
    TwoCallsOk();
    var m2 := After(m1, ops[1]);
    assert m2 == Machine(TwoCalls(), 0, {});
    hide TwoCalls, ChainOk, Frames, PushFrame;
    var m3 := After(m2, ops[2]);
    SlotWriteKeepsFrames(m2.s, m3.s);
    PreparedOk(c);
    var m4 := After(m3, ops[3]);
    assert m4 == Machine(Prepared(c), 0, {});
    assert ops[1..][1..] == ops[2..] && ops[2..][1..] == ops[3..] && ops[3..][1..] == [];
    hide After, Allowed, Prepared;
    assert IsRun(m4, []) && Run(m4, []) == m4;
    RunFirst(m3, ops[3..]);
    RunFirst(m2, ops[2..]);
    RunFirst(m1, ops[1..]);
    RunFirst(m0, ops);
  }

  lemma {:induction false} RunFirst(m: Machine, ops: seq<Op>)
    requires ops != [] && Ok(m.s) && Allowed(m, ops[0]) && IsRun(After(m, ops[0]), ops[1..])
    ensures IsRun(m, ops) && Run(m, ops) == Run(After(m, ops[0]), ops[1..])
  {
    hide After, Allowed, Ok;
  }

  /** After this run the code's checks pass, and returning the value of 32 bytes to the caller's one slot
      replaces the caller's length by the value's third word. */
  lemma {:induction false} ReturnedTooMuch(c: TypeContext, ops: seq<Op>)
    requires c.sizeOfType == 32
    requires ops == [Call(1, 0, 0), Call(4, 0, 0), WriteSlot(2, 77), WriteContext(0, c, false)]
    ensures IsRun(Machine(Fresh(), 0, {}), ops)
    ensures var s := Run(Machine(Fresh(), 0, {}), ops).s;
            && Ok(s) && CanGiveBack(s, 0, 0) && ReturnType(s, 0) == c && !FitsCaller(s, 0, 0)
            && s.frame == Frame(5, 4, 0, 0) && SavedFrame(s.words, 5).length == s.words[6] == 1
            && StoreValue(s.words, RESERVED_SLOTS, LoadValue(s.words, SlotIndex(s, 0), c))[6] == 77
  {
    PreparedRun(c, ops);
    PreparedOk(c);
    hide Prepared, ChainOk, Run, IsRun;
    var s := Prepared(c);
    var v := LoadValue(s.words, 9, c);
    assert v.words[2] == s.words[9..13][2] == 77;
    assert StoreValue(s.words, 4, v)[6] == v.words[2];
  }
}
