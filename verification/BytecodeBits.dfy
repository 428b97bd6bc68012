/** The bytecodes as numbers: where each field of a word lies, from the structs (src/interpreter/operations.h:38-73,
    99-107, 176-193, 383-394) and the opcodes (src/interpreter/bytecode.h:10-82). */
module BytecodeBits {
  import opened StackSpec
  import opened Words
  import opened Bits
  import opened CallArgs
  import opened Operations
  import opened CallOperands

  /** One more field below: `p` is the power of 2 for its width, `high` the number of the fields above. */
  lemma {:induction false} Below(f: Field, rest: seq<Field>, p: nat, high: nat)
    requires Power(f.width) == p && Pack(rest) == high
    ensures Pack([f] + rest) == f.value % p + p * high
  {
    assert ([f] + rest)[1..] == rest;
  }

  lemma {:induction false} NoFields()
    ensures Pack([]) == 0
  {
  }

  /** The long load: opcode 1, load type 1, six bits of type tag and 13 of destination, then the value's word. */
  lemma {:induction false} LoadBits(tag: nat, dst: nat, immediate: Word)
    requires dst <= MAX_FRAME_LENGTH && tag < 64
    ensures MakeLoadImmediateLong(tag, dst, immediate) == [1 + 0x100 * 1 + 0x400 * tag + 0x1_0000 * dst, immediate]
  {
    hide Pack, Power;
    Powers();
    NoFields();
    var f := LoadLongFields(tag, dst);
    assert f == [f[0]] + ([f[1]] + ([f[2]] + ([f[3]] + [])));
    Below(f[3], [], 0x2000, 0);
    Below(f[2], [f[3]] + [], 0x40, dst);
    Below(f[1], [f[2]] + ([f[3]] + []), 4, tag + 0x40 * dst);
    Below(f[0], [f[1]] + ([f[2]] + ([f[3]] + [])), 0x100, 1 + 4 * tag + 0x100 * dst);
  }

  /** The return: opcode 2, whether there is a value, and 13 bits of its slot. */
  lemma {:induction false} ReturnBits(hasReturn: bool, src: nat)
    ensures MakeReturn(hasReturn, src) == 2 + (if hasReturn then 0x100 else 0) + 0x200 * (src % 0x2000)
  {
    hide Pack, Power;
    Powers();
    NoFields();
    var f := ReturnFields(hasReturn, src);
    assert f == [f[0]] + ([f[1]] + ([f[2]] + []));
    Below(f[2], [], 0x2000, 0);
    Below(f[1], [f[2]] + [], 2, src % 0x2000);
    Below(f[0], [f[1]] + ([f[2]] + []), 0x100, Flag(hasReturn) + 2 * (src % 0x2000));
  }

  /** The add: opcode 22, 0 for a destination of its own, whether it may overflow, then both sources and the
      destination with 13 bits each. */
  lemma {:induction false} AddBits(canOverflow: bool, dst: nat, src1: nat, src2: nat)
    requires dst <= MAX_FRAME_LENGTH && src1 <= MAX_FRAME_LENGTH && src2 <= MAX_FRAME_LENGTH
    ensures MakeAddDst(canOverflow, dst, src1, src2)
         == 22 + (if canOverflow then 0x200 else 0) + 0x400 * src1 + 0x80_0000 * src2 + 0x10_0000_0000 * dst
  {
    hide Pack, Power;
    Powers();
    NoFields();
    var f := AddFields(canOverflow, dst, src1, src2);
    assert f == [f[0]] + ([f[1]] + ([f[2]] + ([f[3]] + ([f[4]] + ([f[5]] + [])))));
    Below(f[5], [], 0x2000, 0);
    Below(f[4], [f[5]] + [], 0x2000, dst);
    Below(f[3], [f[4]] + ([f[5]] + []), 0x2000, src2 + 0x2000 * dst);
    var sources := src1 + 0x2000 * src2 + 0x400_0000 * dst;
    Below(f[2], [f[3]] + ([f[4]] + ([f[5]] + [])), 2, sources);
    Below(f[1], [f[2]] + ([f[3]] + ([f[4]] + ([f[5]] + []))), 2, Flag(canOverflow) + 2 * sources);
    Below(f[0], [f[1]] + ([f[2]] + ([f[3]] + ([f[4]] + ([f[5]] + [])))), 0x100,
      2 * Flag(canOverflow) + 4 * sources);
  }

  /** The number a field begins at. */
  function Start(widths: seq<nat>, i: nat): (p: nat)
    requires i <= |widths|
    ensures p > 0
    decreases i
  {
    if i == 0 then 1 else
      ProductSign(Power(widths[0]), Start(widths[1..], i - 1));
      Power(widths[0]) * Start(widths[1..], i - 1)
  }

  lemma {:induction false} FetchAt(w: nat, widths: seq<nat>, i: nat)
    requires i < |widths|
    ensures Fetch(w, widths, i) == w / Start(widths, i) % Power(widths[i])
    decreases i
  {
    if i > 0 {
      FetchAt(Above(w, Power(widths[0])), widths[1..], i - 1);
      Quotients(w, Power(widths[0]), Start(widths[1..], i - 1));
    }
  }

  lemma {:induction false} OpcodeFields(w: nat)
    ensures Fetch(w, [8], 0) == w % 0x100
    ensures Fetch(w, [8, 2], 1) == w / 0x100 % 4 && Fetch(w, [8, 1], 1) == w / 0x100 % 2
  {
    hide Power, Fetch;
    Powers();
    FetchAt(w, [8], 0);
    FetchAt(w, [8, 2], 1);
    FetchAt(w, [8, 1], 1);
  }

  lemma {:induction false} LoadLongBits(w: nat)
    ensures Fetch(w, LOAD_LONG_LAYOUT, 2) == w / 0x400 % 0x40
    ensures Fetch(w, LOAD_LONG_LAYOUT, 3) == w / 0x1_0000 % 0x2000
  {
    hide Power, Fetch;
    Powers();
    FetchAt(w, LOAD_LONG_LAYOUT, 2);
    FetchAt(w, LOAD_LONG_LAYOUT, 3);
  }

  lemma {:induction false} ReturnedBits(w: nat)
    ensures Fetch(w, RETURN_LAYOUT, 1) == w / 0x100 % 2 && Fetch(w, RETURN_LAYOUT, 2) == w / 0x200 % 0x2000
  {
    hide Power, Fetch;
    Powers();
    FetchAt(w, RETURN_LAYOUT, 1);
    FetchAt(w, RETURN_LAYOUT, 2);
  }

  lemma {:induction false} AddendBits(w: nat)
    ensures Fetch(w, ADD_LAYOUT, 2) == w / 0x200 % 2 && Fetch(w, ADD_LAYOUT, 3) == w / 0x400 % 0x2000
    ensures Fetch(w, ADD_LAYOUT, 4) == w / 0x80_0000 % 0x2000
    ensures Fetch(w, ADD_LAYOUT, 5) == w / 0x10_0000_0000 % 0x2000
  {
    hide Power, Fetch;
    Powers();
    FetchAt(w, ADD_LAYOUT, 2);
    FetchAt(w, ADD_LAYOUT, 3);
    FetchAt(w, ADD_LAYOUT, 4);
    FetchAt(w, ADD_LAYOUT, 5);
  }

  /** What any word says to the handlers modelled. */
  lemma {:induction false} DecodeBits(w: Word)
    ensures Decode(w)
         == if w % 0x100 == 1 && w / 0x100 % 4 == 1 then
              LoadImmediateLong(w / 0x400 % 0x40, w / 0x1_0000 % 0x2000)
            else if w % 0x100 == 2 then Return(w / 0x100 % 2 == 1, w / 0x200 % 0x2000)
            else if w % 0x100 == 22 && w / 0x100 % 2 == 0 then
              AddDst(w / 0x200 % 2 == 1, w / 0x10_0000_0000 % 0x2000, w / 0x400 % 0x2000, w / 0x80_0000 % 0x2000)
            else Other
  {
    hide Fetch, Power;
    OpcodeFields(w);
    LoadLongBits(w);
    ReturnedBits(w);
    AddendBits(w);
  }

  /** A call's head: opcode 3, 0 for an immediate function, 13 bits of argument count, whether there is a return,
      13 bits of its slot, and whether the function is a script. */
  lemma {:induction false} CallBits(argCount: nat, hasReturn: bool, returnDst: nat, isScript: bool)
    ensures CallHead(argCount, hasReturn, returnDst, isScript)
         == 3 + 0x200 * (argCount % 0x2000) + (if hasReturn then 0x40_0000 else 0) + 0x80_0000 * (returnDst % 0x2000)
            + (if isScript then 0x10_0000_0000 else 0)
  {
    hide Pack, Power;
    Powers();
    NoFields();
    var f := CallFields(argCount, hasReturn, returnDst, isScript);
    var count, slot := argCount % 0x2000, returnDst % 0x2000;
    assert f == [f[0]] + ([f[1]] + ([f[2]] + ([f[3]] + ([f[4]] + ([f[5]] + [])))));
    Below(f[5], [], 2, 0);
    Below(f[4], [f[5]] + [], 0x2000, Flag(isScript));
    Below(f[3], [f[4]] + ([f[5]] + []), 2, slot + 0x2000 * Flag(isScript));
    var returned := Flag(hasReturn) + 2 * slot + 0x4000 * Flag(isScript);
    Below(f[2], [f[3]] + ([f[4]] + ([f[5]] + [])), 0x2000, returned);
    Below(f[1], [f[2]] + ([f[3]] + ([f[4]] + ([f[5]] + []))), 2, count + 0x2000 * returned);
    Below(f[0], [f[1]] + ([f[2]] + ([f[3]] + ([f[4]] + ([f[5]] + [])))), 0x100, 2 * (count + 0x2000 * returned));
  }

  /** A source to lock: 13 bits of slot, and whether it is locked for writing. */
  lemma {:induction false} SourceBits(s: Source)
    ensures SourceEntry(s) == s.src % 0x2000 + (if s.write then 0x2000 else 0)
  {
    hide Pack, Power;
    Powers();
    NoFields();
    var f := SourceFields(s);
    assert f == [f[0]] + ([f[1]] + ([f[2]] + []));
    Below(f[2], [], 4, 0);
    Below(f[1], [f[2]] + [], 2, 0);
    Below(f[0], [f[1]] + ([f[2]] + []), 0x2000, Flag(s.write));
  }

  /** A sync's head: opcode 6, 0 for locking, 13 bits of count, and the first two sources in 16 bits each. */
  lemma {:induction false} SyncBits(num: nat, first: nat, second: nat)
    requires first < 0x1_0000 && second < 0x1_0000
    ensures SyncHead(num, first, second)
         == 6 + 0x1_0000 * (num % 0x2000) + 0x1_0000_0000 * first + 0x1_0000_0000_0000 * second
  {
    hide Pack, Power;
    Powers();
    Power16();
    NoFields();
    assert Power(7) == 0x80 && Power(3) == 8 by { SmallPowers(); }
    var f := SyncFields(num, first, second);
    assert f == [f[0]] + ([f[1]] + ([f[2]] + ([f[3]] + ([f[4]] + ([f[5]] + ([f[6]] + []))))));
    Below(f[6], [], 0x1_0000, 0);
    Below(f[5], [f[6]] + [], 0x1_0000, second);
    var sources := first + 0x1_0000 * second;
    Below(f[4], [f[5]] + ([f[6]] + []), 8, sources);
    Below(f[3], [f[4]] + ([f[5]] + ([f[6]] + [])), 0x2000, 8 * sources);
    var counted := num % 0x2000 + 0x1_0000 * sources;
    Below(f[2], [f[3]] + ([f[4]] + ([f[5]] + ([f[6]] + []))), 0x80, counted);
    Below(f[1], [f[2]] + ([f[3]] + ([f[4]] + ([f[5]] + ([f[6]] + [])))), 2, 0x80 * counted);
    Below(f[0], [f[1]] + ([f[2]] + ([f[3]] + ([f[4]] + ([f[5]] + ([f[6]] + []))))), 0x100, 0x100 * counted);
  }

  lemma {:induction false} SmallPowers()
    ensures Power(7) == 0x80 && Power(3) == 8
  {
    assert Power(3) == 8;
    PowerSum(3, 3);
    PowerSum(6, 1);
  }

  /** The four 16-bit numbers of a word. */
  lemma {:induction false} LaneBits(w: nat)
    ensures Lane(w, 0) == w % 0x1_0000 && Lane(w, 1) == w / 0x1_0000 % 0x1_0000
    ensures Lane(w, 2) == w / 0x1_0000_0000 % 0x1_0000 && Lane(w, 3) == w / 0x1_0000_0000_0000 % 0x1_0000
  {
    var a := w / 0x1_0000;
    var b := a / 0x1_0000;
    assert b == w / 0x1_0000_0000 && b / 0x1_0000 == w / 0x1_0000_0000_0000;
    assert Lane(w, 2) == Lane(a, 1) == Lane(b, 0);
    assert Lane(w, 3) == Lane(a, 2) == Lane(b, 1) == Lane(b / 0x1_0000, 0);
  }

  /** Stored entries lie four to a word, from the lowest 16 bits up. */
  lemma {:induction false} EntryBits(code: seq<Word>, start: nat, entries: seq<nat>, i: nat)
    requires Stored(code, start, entries, |entries|) && i < |entries|
    ensures var w := start + i / 4;
      && w < |code|
      && entries[i] == (if i % 4 == 0 then code[w] else if i % 4 == 1 then code[w] / 0x1_0000
                        else if i % 4 == 2 then code[w] / 0x1_0000_0000 else code[w] / 0x1_0000_0000_0000) % 0x1_0000
  {
    hide Lane;
    EntryInside(i, |entries|);
    LaneBits(code[start + i / 4]);
  }
}
