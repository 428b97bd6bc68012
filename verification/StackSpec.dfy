/** The interpreter's stack as a value (src/interpreter/stack.c, src/interpreter/stack.h): one flat array
    of words in which the frames are chained, and a parallel array that says who owns what. */
module StackSpec {
  import opened Words

  const STACK_SLOTS: nat := 0x2_0000
  const RESERVED_SLOTS: nat := 4
  const MAX_FRAME_LENGTH: nat := 8191

  /** A type's description; only its identity and size matter here. */
  datatype TypeContext = TypeContext(id: nat, sizeOfType: nat)

  /** What the context array says of a slot: nothing, or a type with the tag bit for a borrowed value. */
  datatype SlotContext = NoContext | Typed(context: TypeContext, isReference: bool)

  /** `returnValueDst` and `returnContextDst` are addresses. */
  datatype Frame = Frame(base: nat, length: Word, returnValueDst: Word, returnContextDst: Word)

  datatype Stack = Stack(words: seq<Word>, contexts: seq<SlotContext>, nextBase: nat, frame: Frame, ip: Word)

  predicate Owning(c: SlotContext) {
    c.Typed? && !c.isReference
  }

  predicate Sized(s: Stack) {
    |s.words| == STACK_SLOTS && |s.contexts| == STACK_SLOTS && s.nextBase <= STACK_SLOTS
  }

  /** Zeroed memory, as a thread starts. */
  function Fresh(): Stack {
    Stack(seq(STACK_SLOTS, _ => 0), seq(STACK_SLOTS, _ => NoContext), 0, Frame(0, 0, 0, 0), 0)
  }

  // ---- Frames ----

  /** The four words a new frame saves: those of the frame below it, or zeroes at the bottom. */
  function SavedWords(s: Stack): seq<Word> {
    if s.nextBase == 0 then [0, 0, 0, 0]
    else [s.ip, s.frame.length, s.frame.returnValueDst, s.frame.returnContextDst]
  }

  /** Nothing in `push_frame` checks that the frame fits the array; the caller must see to it. */
  predicate CanPush(s: Stack, frameLength: nat) {
    Sized(s) && frameLength <= MAX_FRAME_LENGTH && s.nextBase + RESERVED_SLOTS + frameLength <= STACK_SLOTS
  }

  function Overwrite<T>(a: seq<T>, at: nat, with: seq<T>): (r: seq<T>)
    requires at + |with| <= |a|
    ensures |r| == |a|
    ensures forall i :: 0 <= i < |a| ==> r[i] == if at <= i < at + |with| then with[i - at] else a[i]
  {
    a[..at] + with + a[at + |with|..]
  }

  function PushFrame(s: Stack, frameLength: nat, returnValueDst: Word, returnContextDst: Word): Stack
    requires CanPush(s, frameLength)
  {
    s.(words := Overwrite(s.words, s.nextBase, SavedWords(s)),
       frame := Frame(s.nextBase, frameLength, returnValueDst, returnContextDst),
       nextBase := s.nextBase + frameLength + RESERVED_SLOTS)
  }

  /** The frame below one that starts at `base`, from the words saved there. */
  function SavedFrame(words: seq<Word>, base: nat): Frame
    requires base + 4 <= |words| && words[base + 1] + RESERVED_SLOTS <= base
  {
    Frame(base - words[base + 1] - RESERVED_SLOTS, words[base + 1], words[base + 2], words[base + 3])
  }

  /** Popping the last frame leaves the frame record as it was. */
  function PopFrame(s: Stack): Stack
    requires Sized(s) && s.nextBase != 0 && s.frame.length + RESERVED_SLOTS <= s.nextBase
    requires s.nextBase != s.frame.length + RESERVED_SLOTS ==>
      s.frame.base + 4 <= STACK_SLOTS
      && s.words[s.frame.base + 1] + RESERVED_SLOTS <= s.nextBase - s.frame.length - RESERVED_SLOTS
  {
    var next := s.nextBase - s.frame.length - RESERVED_SLOTS;
    if next == 0 then s.(nextBase := 0)
    else
      var b := s.frame.base;
      s.(nextBase := next,
         frame := Frame(next - s.words[b + 1] - RESERVED_SLOTS, s.words[b + 1], s.words[b + 2], s.words[b + 3]))
  }

  /** The frames chained below `nextBase` in the flat array fit together down to the bottom. */
  ghost predicate ChainOk(words: seq<Word>, nextBase: nat, frame: Frame)
    decreases nextBase
  {
    nextBase == 0 ||
    (&& frame.length <= MAX_FRAME_LENGTH
     && frame.base + RESERVED_SLOTS + frame.length == nextBase <= |words|
     && (frame.base > 0 ==> words[frame.base + 1] + RESERVED_SLOTS <= frame.base
                            && ChainOk(words, frame.base, SavedFrame(words, frame.base))))
  }

  /** The chain read off as a sequence of frame records, bottom first. */
  ghost function Frames(words: seq<Word>, nextBase: nat, frame: Frame): seq<Frame>
    requires ChainOk(words, nextBase, frame)
    decreases nextBase
  {
    if nextBase == 0 then []
    else if frame.base == 0 then [frame]
    else Frames(words, frame.base, SavedFrame(words, frame.base)) + [frame]
  }

  ghost predicate Ok(s: Stack) {
    Sized(s) && ChainOk(s.words, s.nextBase, s.frame)
  }

  ghost function FramesOf(s: Stack): seq<Frame>
    requires Ok(s)
  {
    Frames(s.words, s.nextBase, s.frame)
  }

  /** The chain only depends on words below `nextBase` that are reserved slots of its frames. */
  ghost predicate SameReserved(v: seq<Word>, w: seq<Word>, nextBase: nat, frame: Frame)
    requires ChainOk(v, nextBase, frame) && |v| == |w|
    decreases nextBase
  {
    nextBase == 0 || frame.base == 0 ||
    (v[frame.base..frame.base + 4] == w[frame.base..frame.base + 4]
     && SameReserved(v, w, frame.base, SavedFrame(v, frame.base)))
  }

  lemma {:induction false} ChainUnchanged(v: seq<Word>, w: seq<Word>, nextBase: nat, frame: Frame)
    requires ChainOk(v, nextBase, frame) && |v| == |w| && SameReserved(v, w, nextBase, frame)
    ensures ChainOk(w, nextBase, frame) && Frames(w, nextBase, frame) == Frames(v, nextBase, frame)
    decreases nextBase
  {
    if nextBase != 0 && frame.base != 0 {
      var b := frame.base;
      assert v[b..b + 4] == [v[b], v[b + 1], v[b + 2], v[b + 3]];
      assert w[b..b + 4] == [w[b], w[b + 1], w[b + 2], w[b + 3]];
      assert SavedFrame(v, b) == SavedFrame(w, b);
      ChainUnchanged(v, w, b, SavedFrame(v, b));
    }
  }

  /** Words written inside the top frame's own slots, or above it, are no frame's reserved slots. */
  lemma {:induction false} WriteKeepsReserved(v: seq<Word>, w: seq<Word>, nextBase: nat, frame: Frame, limit: nat)
    requires ChainOk(v, nextBase, frame) && |v| == |w| && nextBase > 0
    requires limit >= frame.base + 4 && forall i :: 0 <= i < |v| && i < limit ==> v[i] == w[i]
    ensures SameReserved(v, w, nextBase, frame)
    decreases nextBase
  {
    if frame.base != 0 {
      WriteKeepsReserved(v, w, frame.base, SavedFrame(v, frame.base), limit);
    }
  }

  // ---- The chain refines a stack of frame records ----

  /** Pushing adds one record and keeps all the others. */
  lemma PushRefines(s: Stack, n: nat, rv: Word, rc: Word)
    requires Ok(s) && CanPush(s, n)
    ensures var r := PushFrame(s, n, rv, rc);
            Ok(r) && FramesOf(r) == FramesOf(s) + [Frame(s.nextBase, n, rv, rc)]
  {
    var r := PushFrame(s, n, rv, rc);
    if s.nextBase != 0 {
      WriteKeepsReserved(s.words, r.words, s.nextBase, s.frame, s.nextBase);
      ChainUnchanged(s.words, r.words, s.nextBase, s.frame);
      assert SavedFrame(r.words, s.nextBase) == s.frame;
    }
  }

  /** Popping removes the last record; when a caller is left, its base, length and return destinations
      are back exactly as they were. */
  lemma PopRefines(s: Stack)
    requires Ok(s) && s.nextBase != 0
    ensures s.frame.length + RESERVED_SLOTS <= s.nextBase
    ensures s.nextBase != s.frame.length + RESERVED_SLOTS ==>
      s.frame.base + 4 <= STACK_SLOTS
      && s.words[s.frame.base + 1] + RESERVED_SLOTS <= s.nextBase - s.frame.length - RESERVED_SLOTS
    ensures var r := PopFrame(s); var fs := FramesOf(s);
            && Ok(r) && |fs| > 0 && fs[|fs| - 1] == s.frame && FramesOf(r) == fs[..|fs| - 1]
            && (|fs| > 1 ==> r.frame == fs[|fs| - 2])
            && r.words == s.words && r.contexts == s.contexts && r.nextBase == s.frame.base
  {
  }

  /** A new frame saves the instruction pointer, the length and the two return destinations of the frame below,
      in this order, or zeroes at the bottom, and writes nothing else. */
  lemma PushSaves(s: Stack, n: nat, rv: Word, rc: Word)
    requires CanPush(s, n)
    ensures var r, b := PushFrame(s, n, rv, rc), s.nextBase;
      && r.frame.base == b && r.frame.length == n && r.frame.returnValueDst == rv && r.frame.returnContextDst == rc
      && r.nextBase == b + 4 + n && r.contexts == s.contexts && r.ip == s.ip && |r.words| == |s.words|
      && r.words[b] == (if b == 0 then 0 else s.ip) && r.words[b + 1] == (if b == 0 then 0 else s.frame.length)
      && r.words[b + 2] == (if b == 0 then 0 else s.frame.returnValueDst)
      && r.words[b + 3] == (if b == 0 then 0 else s.frame.returnContextDst)
      && forall i :: 0 <= i < |s.words| && !(b <= i < b + 4) ==> r.words[i] == s.words[i]
  {
  }

  // ---- Slots of the current frame ----

  /** Index of the frame's slot `offset` in the flat array. */
  function SlotIndex(s: Stack, offset: nat): nat {
    s.frame.base + RESERVED_SLOTS + offset
  }

  function SetWord(s: Stack, offset: nat, w: Word): Stack
    requires Sized(s) && SlotIndex(s, offset) < STACK_SLOTS
  {
    s.(words := s.words[SlotIndex(s, offset) := w])
  }

  /** How many slots after the first a context write clears. */
  function ClearedAfter(context: TypeContext): nat {
    if context.sizeOfType > 8 then context.sizeOfType / 8 - 1 else 0
  }

  /** A context stored at an absolute index, with the slots after it cleared. */
  function PutContext(cs: seq<SlotContext>, at: nat, c: TypeContext, isReference: bool): seq<SlotContext>
    requires at + ClearedAfter(c) < |cs|
  {
    Overwrite(cs, at, [Typed(c, isReference)] + seq(ClearedAfter(c), _ => NoContext))
  }

  function SetContext(s: Stack, offset: nat, c: TypeContext, isReference: bool): Stack
    requires Sized(s) && SlotIndex(s, offset) + ClearedAfter(c) < STACK_SLOTS
  {
    s.(contexts := PutContext(s.contexts, SlotIndex(s, offset), c, isReference))
  }

  /** A context write says the type of its slot and clears the slots behind it that the value covers whole, one
      for each further 8 bytes. */
  lemma ContextWritten(s: Stack, offset: nat, c: TypeContext, isReference: bool, k: nat)
    requires Sized(s) && SlotIndex(s, offset) + ClearedAfter(c) < STACK_SLOTS && k < STACK_SLOTS
    ensures var at := s.frame.base + 4 + offset; var r := SetContext(s, offset, c, isReference);
      && |r.contexts| == STACK_SLOTS
      && r.contexts[k] == if k == at then Typed(c, isReference)
                          else if at < k < at + c.sizeOfType / 8 then NoContext
                          else s.contexts[k]
  {
  }

  function SetNullContext(s: Stack, offset: nat): Stack
    requires Sized(s) && SlotIndex(s, offset) < STACK_SLOTS
  {
    s.(contexts := s.contexts[SlotIndex(s, offset) := NoContext])
  }

  /** The first `n` slots of the frame after unwinding: owning contexts are gone, all others are left. */
  function UnwoundContexts(cs: seq<SlotContext>, start: nat, n: nat): (r: seq<SlotContext>)
    requires start + n <= |cs|
    ensures |r| == |cs|
    ensures forall i :: 0 <= i < |cs| ==> r[i] == if start <= i < start + n && Owning(cs[i]) then NoContext else cs[i]
  {
    if n == 0 then cs
    else
      var t := UnwoundContexts(cs, start, n - 1);
      if Owning(cs[start + n - 1]) then t[start + n - 1 := NoContext] else t
  }

  /** The destructor calls of unwinding: each owning slot of the first `n`, in order, with its type. */
  function Destroyed(cs: seq<SlotContext>, start: nat, n: nat): seq<(nat, TypeContext)>
    requires start + n <= |cs|
  {
    if n == 0 then []
    else Destroyed(cs, start, n - 1) +
         (if Owning(cs[start + n - 1]) then [(n - 1, cs[start + n - 1].context)] else [])
  }

  /** Each call is for an owning slot, with its type, and the slots go up. */
  ghost predicate OwnedInOrder(d: seq<(nat, TypeContext)>, cs: seq<SlotContext>, start: nat, n: nat)
    requires start + n <= |cs|
  {
    && (forall k :: 0 <= k < |d| ==> d[k].0 < n && cs[start + d[k].0] == Typed(d[k].1, false))
    && (forall k, l :: 0 <= k < l < |d| ==> d[k].0 < d[l].0)
  }

  /** Each owning slot of the `n` from `start` on is in the calls once, and no other slot is. */
  ghost predicate EachOnce(d: seq<(nat, TypeContext)>, cs: seq<SlotContext>, start: nat, n: nat)
    requires start + n <= |cs|
  {
    && OwnedInOrder(d, cs, start, n)
    && forall i :: start <= i < start + n && Owning(cs[i]) ==> (i - start, cs[i].context) in d
  }

  lemma {:induction false} DestroyedOwned(cs: seq<SlotContext>, start: nat, n: nat)
    requires start + n <= |cs|
    ensures OwnedInOrder(Destroyed(cs, start, n), cs, start, n)
  {
    if n > 0 {
      DestroyedOwned(cs, start, n - 1);
      var t, last := Destroyed(cs, start, n - 1), cs[start + n - 1];
      var more := if Owning(last) then [(n - 1, last.context)] else [];
      assert Destroyed(cs, start, n) == t + more;
      hide Destroyed;
      assert OwnedInOrder(t + more, cs, start, n);
    }
  }

  lemma {:induction false} OwnerDestroyed(cs: seq<SlotContext>, start: nat, n: nat, i: nat)
    requires start + n <= |cs| && start <= i < start + n && Owning(cs[i])
    ensures (i - start, cs[i].context) in Destroyed(cs, start, n)
  {
    if i < start + n - 1 {
      OwnerDestroyed(cs, start, n - 1, i);
    }
  }

  /** A slot is destroyed once if it owns its value and never otherwise. */
  lemma {:induction false} DestroyedOnce(cs: seq<SlotContext>, start: nat, n: nat)
    requires start + n <= |cs|
    ensures EachOnce(Destroyed(cs, start, n), cs, start, n)
  {
    DestroyedOwned(cs, start, n);
    hide Destroyed, OwnedInOrder;
    forall i | start <= i < start + n && Owning(cs[i]) ensures (i - start, cs[i].context) in Destroyed(cs, start, n) {
      OwnerDestroyed(cs, start, n, i);
    }
  }

  function Unwind(s: Stack): Stack
    requires Sized(s) && SlotIndex(s, s.frame.length) <= STACK_SLOTS
  {
    s.(contexts := UnwoundContexts(s.contexts, SlotIndex(s, 0), s.frame.length))
  }

  /** Writing inside the frame leaves every frame record as it was. */
  lemma SlotWriteKeepsFrames(s: Stack, r: Stack)
    requires Ok(s) && s.nextBase != 0
    requires r.nextBase == s.nextBase && r.frame == s.frame && Sized(r)
    requires forall i :: 0 <= i < s.frame.base + RESERVED_SLOTS ==> r.words[i] == s.words[i]
    ensures Ok(r) && FramesOf(r) == FramesOf(s)
  {
    WriteKeepsReserved(s.words, r.words, s.nextBase, s.frame, s.frame.base + RESERVED_SLOTS);
    ChainUnchanged(s.words, r.words, s.nextBase, s.frame);
  }
}
