/** Values of any size in the stack's words: what `memcpy` of their bytes moves in and out
    (src/interpreter/stack.c:171-235, src/interpreter/interpreter.c:157). */
module Values {
  import opened Bits
  import opened StackSpec
  import opened Words

  /** The low `r` bytes of a word. */
  function LowBytes(w: nat, r: nat): (l: nat)
    ensures l <= w
  {
    if r == 0 then 0 else w % 0x100 + 0x100 * LowBytes(w / 0x100, r - 1)
  }

  /** The low `r` bytes of one word and the others of another. */
  function Splice(low: nat, high: nat, r: nat): nat {
    if r == 0 then high else low % 0x100 + 0x100 * Splice(low / 0x100, high / 0x100, r - 1)
  }

  lemma {:induction false} LowOfSplice(low: nat, high: nat, r: nat)
    ensures LowBytes(Splice(low, high, r), r) == LowBytes(low, r)
  {
    if r > 0 {
      var t := Splice(low / 0x100, high / 0x100, r - 1);
      assert (low % 0x100 + 0x100 * t) % 0x100 == low % 0x100 && (low % 0x100 + 0x100 * t) / 0x100 == t;
      LowOfSplice(low / 0x100, high / 0x100, r - 1);
    }
  }

  function ByteLimit(n: nat): nat {
    if n == 0 then 1 else 0x100 * ByteLimit(n - 1)
  }

  lemma {:induction false} SpliceFits(low: nat, high: nat, r: nat, n: nat)
    requires low < ByteLimit(n) && high < ByteLimit(n)
    ensures Splice(low, high, r) < ByteLimit(n)
    decreases r
  {
    if r > 0 {
      if n == 0 {
        SpliceFits(0, 0, r - 1, 0);
      } else {
        SpliceFits(low / 0x100, high / 0x100, r - 1, n - 1);
      }
    }
  }

  function Merge(low: Word, high: Word, r: nat): Word {
    assert ByteLimit(8) == TWO_64 by {
      assert ByteLimit(2) == 0x1_0000 && ByteLimit(4) == 0x1_0000_0000 && ByteLimit(6) == 0x1_0000_0000_0000;
    }
    SpliceFits(low, high, r, 8);
    Splice(low, high, r)
  }

  /** Slots taken by a value of a type. */
  function SlotsOf(c: TypeContext): nat {
    (c.sizeOfType + 7) / 8
  }

  /** A value of `context.sizeOfType` bytes as words; a last, partial word has only its low bytes. */
  datatype Value = Value(context: TypeContext, words: seq<Word>)

  predicate ValueOk(v: Value) {
    && |v.words| == SlotsOf(v.context)
    && (v.context.sizeOfType % 8 != 0 ==>
          LowBytes(v.words[|v.words| - 1], v.context.sizeOfType % 8) == v.words[|v.words| - 1])
  }

  /** What memory holds after `memcpy` of a value over old words: the bytes past its size stay. */
  function CopyIn(v: Value, was: seq<Word>): (r: seq<Word>)
    requires ValueOk(v) && |was| == |v.words|
    ensures |r| == |was|
  {
    if v.context.sizeOfType % 8 == 0 then v.words
    else v.words[|was| - 1 := Merge(v.words[|was| - 1], was[|was| - 1], v.context.sizeOfType % 8)]
  }

  /** What `memcpy` of `sizeOfType` bytes takes out of memory. */
  function CopyOut(c: TypeContext, mem: seq<Word>): seq<Word>
    requires |mem| == SlotsOf(c)
  {
    if c.sizeOfType % 8 == 0 then mem
    else mem[|mem| - 1 := LowBytes(mem[|mem| - 1], c.sizeOfType % 8)]
  }

  lemma {:induction false} CopyRoundTrip(v: Value, was: seq<Word>)
    requires ValueOk(v) && |was| == |v.words|
    ensures CopyOut(v.context, CopyIn(v, was)) == v.words
  {
    if v.context.sizeOfType % 8 != 0 {
      LowOfSplice(v.words[|was| - 1], was[|was| - 1], v.context.sizeOfType % 8);
    }
  }

  /** `memcpy` of a value into the stack: only the words it covers change. */
  function StoreValue(words: seq<Word>, at: nat, v: Value): (r: seq<Word>)
    requires ValueOk(v) && at + |v.words| <= |words|
    ensures |r| == |words|
  {
    Overwrite(words, at, CopyIn(v, words[at..at + |v.words|]))
  }

  /** Only those slots change, and the value can be read back from them. */
  lemma {:induction false} StoredValue(words: seq<Word>, at: nat, v: Value)
    requires ValueOk(v) && at + |v.words| <= |words|
    ensures var r := StoreValue(words, at, v);
            && (forall i :: 0 <= i < |words| && !(at <= i < at + |v.words|) ==> r[i] == words[i])
            && CopyOut(v.context, r[at..at + |v.words|]) == v.words
  {
    hide CopyIn, CopyOut, Overwrite, SlotsOf;
    var copied := CopyIn(v, words[at..at + |v.words|]);
    CopyRoundTrip(v, words[at..at + |v.words|]);
    assert StoreValue(words, at, v)[at..at + |v.words|] == copied;
  }

  lemma {:induction false} LowBytesTwice(w: nat, r: nat)
    ensures LowBytes(LowBytes(w, r), r) == LowBytes(w, r)
  {
    if r > 0 {
      var t := LowBytes(w / 0x100, r - 1);
      assert (w % 0x100 + 0x100 * t) % 0x100 == w % 0x100 && (w % 0x100 + 0x100 * t) / 0x100 == t;
      LowBytesTwice(w / 0x100, r - 1);
    }
  }

  /** The value of a type that the words from `at` on hold. */
  function LoadValue(words: seq<Word>, at: nat, c: TypeContext): (v: Value)
    requires at + SlotsOf(c) <= |words|
    ensures ValueOk(v) && v.context == c
  {
    var mem := words[at..at + SlotsOf(c)];
    if c.sizeOfType % 8 != 0 then LowBytesTwice(mem[|mem| - 1], c.sizeOfType % 8); Value(c, CopyOut(c, mem))
    else Value(c, mem)
  }

  // ---- Bytes ----

  /** Byte `k` of a word, from the lowest. */
  function ByteOf(w: nat, k: nat): nat {
    if k == 0 then w % 0x100 else ByteOf(w / 0x100, k - 1)
  }

  /** Byte `k` is the eight bits from bit `8 * k` on. */
  lemma {:induction false} ByteBits(w: nat, k: nat)
    ensures ByteOf(w, k) == w / Power(8 * k) % 0x100
  {
    if k > 0 {
      ByteBits(w / 0x100, k - 1);
      Power16();
      PowerSum(8, 8 * (k - 1));
      hide Power;
      Quotients(w, 0x100, Power(8 * (k - 1)));
    }
  }

  /** Byte `k` of the memory that the words are. */
  function MemoryByte(words: seq<Word>, k: nat): nat
    requires k < 8 * |words|
  {
    ByteOf(words[k / 8], k % 8)
  }

  /** Byte `b` of what lies at slot `at`. */
  function SlotByte(words: seq<Word>, at: nat, b: nat): nat
    requires 8 * at + b < 8 * |words|
  {
    MemoryByte(words, 8 * at + b)
  }

  lemma {:induction false} SpliceByte(low: nat, high: nat, r: nat, k: nat)
    ensures ByteOf(Splice(low, high, r), k) == if k < r then ByteOf(low, k) else ByteOf(high, k)
  {
    if r > 0 {
      var t := Splice(low / 0x100, high / 0x100, r - 1);
      assert (low % 0x100 + 0x100 * t) % 0x100 == low % 0x100 && (low % 0x100 + 0x100 * t) / 0x100 == t;
      if k > 0 {
        SpliceByte(low / 0x100, high / 0x100, r - 1, k - 1);
      }
    }
  }

  lemma {:induction false} LowByte(w: nat, r: nat, k: nat)
    requires k < r
    ensures ByteOf(LowBytes(w, r), k) == ByteOf(w, k)
  {
    var t := LowBytes(w / 0x100, r - 1);
    assert (w % 0x100 + 0x100 * t) % 0x100 == w % 0x100 && (w % 0x100 + 0x100 * t) / 0x100 == t;
    if k > 0 {
      LowByte(w / 0x100, r - 1, k - 1);
    }
  }

  /** One word of memory that a value is stored to. */
  lemma {:induction false} StoredWord(words: seq<Word>, to: nat, v: Value, i: nat, b: nat)
    requires ValueOk(v) && to + |v.words| <= |words| && i < |v.words| && b < 8
    ensures ByteOf(StoreValue(words, to, v)[to + i], b)
         == if 8 * i + b < v.context.sizeOfType then ByteOf(v.words[i], b) else ByteOf(words[to + i], b)
  {
    hide ByteOf, LowBytes, Splice, Overwrite;
    var was := words[to..to + |v.words|];
    assert StoreValue(words, to, v)[to + i] == CopyIn(v, was)[i];
    assert was[i] == words[to + i];
    var r := v.context.sizeOfType % 8;
    if r != 0 && i == |v.words| - 1 {
      SpliceByte(v.words[i], was[i], r, b);
    }
  }

  /** One word of a value copied from one place to another. */
  lemma {:induction false} CopiedWord(words: seq<Word>, from: nat, to: nat, c: TypeContext, i: nat, b: nat)
    requires from + SlotsOf(c) <= |words| && to + SlotsOf(c) <= |words| && i < SlotsOf(c) && b < 8
    ensures ByteOf(StoreValue(words, to, LoadValue(words, from, c))[to + i], b)
         == if 8 * i + b < c.sizeOfType then ByteOf(words[from + i], b) else ByteOf(words[to + i], b)
  {
    hide ByteOf, LowBytes, StoreValue;
    var v := LoadValue(words, from, c);
    StoredWord(words, to, v, i, b);
    assert words[from..from + SlotsOf(c)][i] == words[from + i];
    var r := c.sizeOfType % 8;
    if r != 0 && i == SlotsOf(c) - 1 && b < r {
      LowByte(words[from + i], r, b);
    }
  }

  /** Copying a value from one place to another copies the bytes of its size. */
  lemma {:induction false} CopiedBytes(words: seq<Word>, from: nat, to: nat, c: TypeContext, b: nat)
    requires from + SlotsOf(c) <= |words| && to + SlotsOf(c) <= |words| && b < c.sizeOfType
    ensures SlotByte(StoreValue(words, to, LoadValue(words, from, c)), to, b) == SlotByte(words, from, b)
  {
    hide ByteOf, StoreValue, LoadValue;
    CopiedWord(words, from, to, c, b / 8, b % 8);
    SlotOfByte(from, b);
    SlotOfByte(to, b);
  }

  /** A value that is stored is there byte for byte. */
  lemma {:induction false} StoredBytes(words: seq<Word>, to: nat, v: Value, b: nat)
    requires ValueOk(v) && to + |v.words| <= |words| && b < v.context.sizeOfType
    ensures SlotByte(StoreValue(words, to, v), to, b) == ByteOf(v.words[b / 8], b % 8)
  {
    hide ByteOf, StoreValue;
    StoredWord(words, to, v, b / 8, b % 8);
    SlotOfByte(to, b);
  }

  lemma SlotOfByte(at: nat, b: nat)
    ensures (8 * at + b) / 8 == at + b / 8 && (8 * at + b) % 8 == b % 8
  {
  }

  /** No other byte changes. */
  lemma {:induction false} OtherBytes(words: seq<Word>, from: nat, to: nat, c: TypeContext, k: nat)
    requires from + SlotsOf(c) <= |words| && to + SlotsOf(c) <= |words|
    requires k < 8 * |words| && !(8 * to <= k < 8 * to + c.sizeOfType)
    ensures MemoryByte(StoreValue(words, to, LoadValue(words, from, c)), k) == MemoryByte(words, k)
  {
    hide ByteOf, StoreValue, LoadValue;
    var i := k / 8;
    if to <= i < to + SlotsOf(c) {
      CopiedWord(words, from, to, c, i - to, k % 8);
    } else {
      StoredValue(words, to, LoadValue(words, from, c));
    }
  }
}
