/** What pushing arguments for a C function leaves in memory (src/interpreter/stack.c:184-235): where each
    argument's bytes lie, and the tracker behind them. */
module ArgumentMemory {
  import opened StackSpec
  import opened Words
  import opened Values
  import opened CallArgs
  import opened BytecodeBits

  /** Offsets count the slots in front, a value taking as many as its size needs. */
  lemma {:induction false} OffsetSteps(vs: seq<Value>, i: nat)
    requires i < |vs| && ValuesOk(vs)
    ensures OffsetOf(vs, 0) == 0 && OffsetOf(vs, i + 1) == OffsetOf(vs, i) + (vs[i].context.sizeOfType + 7) / 8
  {
  }

  lemma {:induction false} CopiedOut(c: TypeContext, mem: seq<Word>, words: seq<Word>, b: nat)
    requires |mem| == SlotsOf(c) && CopyOut(c, mem) == words && b < c.sizeOfType
    ensures b / 8 < |mem| == |words| && ByteOf(mem[b / 8], b % 8) == ByteOf(words[b / 8], b % 8)
  {
    hide ByteOf, LowBytes;
    var r := c.sizeOfType % 8;
    if r != 0 && b / 8 == |mem| - 1 {
      LowByte(mem[b / 8], r, b % 8);
    }
  }

  /** The bytes of an argument, and its context. */
  lemma {:induction false} ArgumentBytes(s: Stack, at: nat, v: Value, b: nat)
    requires Sized(s) && ArgAt(s, at, v) && b < v.context.sizeOfType
    ensures 8 * at + b < 8 * |s.words| && SlotByte(s.words, at, b) == ByteOf(v.words[b / 8], b % 8)
    ensures at < |s.contexts| && s.contexts[at] == Typed(v.context, false)
  {
    hide ByteOf, CopyOut;
    var mem := s.words[at..at + |v.words|];
    CopiedOut(v.context, mem, v.words, b);
    SlotOfByte(at, b);
    assert mem[b / 8] == s.words[at + b / 8];
  }

  lemma {:induction false} PushAllBelow(s: Stack, vs: seq<Value>, n: nat)
    requires n <= |vs| && CanPushAll(s, vs, n) && Sized(s)
    ensures var r := PushAll(s, vs, n);
      && Sized(r) && r.nextBase == s.nextBase
      && forall i :: 0 <= i < s.nextBase + 4 && i < STACK_SLOTS ==>
           r.words[i] == s.words[i] && r.contexts[i] == s.contexts[i]
    decreases |vs| - n
  {
    hide CanPushArg, PushCArg, OffsetOf, ArgAt;
    if n < |vs| {
      var offset := OffsetOf(vs, n);
      PushedArg(s, ArgBase(s) + offset, vs[n], offset, n);
      PushAllBelow(PushCArg(s, vs[n], offset, n), vs, n + 1);
    }
  }

  /** After pushing any arguments: behind them come a word with their number and room for their offsets; nothing
      below has changed. */
  lemma {:induction false} TrackerLayout(s: Stack, vs: seq<Value>)
    requires Sized(s) && ValuesOk(vs) && vs != [] && CanPushAll(s, vs, 0) && s.nextBase + 4 <= STACK_SLOTS
    ensures var r, base := PushAll(s, vs, 0), s.nextBase + 4;
      var track := base + OffsetOf(vs, |vs|);
      && |r.words| == |s.words| && |r.contexts| == |s.contexts|
      && track + 1 + (|vs| + 3) / 4 <= |r.words| && r.words[track] == |vs|
      && forall i :: 0 <= i < base ==> r.words[i] == s.words[i] && r.contexts[i] == s.contexts[i]
  {
    hide OffsetOf, ArgAt, CanPushAll, PushAll, ValueOk, Lane;
    NoneHeld(s, vs);
    PushAllHolds(s, vs, 0);
    PushAllBelow(s, vs, 0);
  }

  /** Each argument lies behind those before it, byte for byte and owned; its offset is in the 16 bits it has
      behind the number of arguments, four to a word. */
  lemma {:induction false} ArgumentLayout(s: Stack, vs: seq<Value>, i: nat, b: nat)
    requires Sized(s) && ValuesOk(vs) && i < |vs| && CanPushAll(s, vs, 0) && s.nextBase + 4 <= STACK_SLOTS
    requires b < vs[i].context.sizeOfType
    ensures var r, base := PushAll(s, vs, 0), s.nextBase + 4;
      var track, at := base + OffsetOf(vs, |vs|), base + OffsetOf(vs, i);
      && track + 1 + i / 4 < |r.words| && OffsetOf(vs, i) == Sixteen(r.words[track + 1 + i / 4], i % 4)
      && at < |r.contexts| && r.contexts[at] == Typed(vs[i].context, false)
      && 8 * at + b < 8 * |r.words| && b / 8 < |vs[i].words|
      && SlotByte(r.words, at, b) == ByteOf(vs[i].words[b / 8], b % 8)
  {
    hide OffsetOf, CanPushAll, PushAll, ByteOf, SlotByte, Lane, Sixteen, CopyOut;
    NoneHeld(s, vs);
    PushAllHolds(s, vs, 0);
    var r, base := PushAll(s, vs, 0), s.nextBase + 4;
    assert i !in {} && ArgAt(r, base + OffsetOf(vs, i), vs[i]);
    ArgumentBytes(r, base + OffsetOf(vs, i), vs[i], b);
    SixteenIsLane(r.words[base + OffsetOf(vs, |vs|) + 1 + i / 4], i % 4);
  }

  /** 16 bits of a word from bit `16 * j` on. */
  function Sixteen(w: nat, j: nat): nat {
    (if j == 0 then w else if j == 1 then w / 0x1_0000 else if j == 2 then w / 0x1_0000_0000
     else w / 0x1_0000_0000_0000) % 0x1_0000
  }

  lemma {:induction false} SixteenIsLane(w: nat, j: nat)
    requires j < 4
    ensures Sixteen(w, j) == Lane(w, j)
  {
    hide Lane;
    LaneBits(w);
  }
}
