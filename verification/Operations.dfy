/** Bytecodes (src/interpreter/bytecode.h, src/interpreter/operations.h, src/interpreter/operations.c): 64-bit
    words whose bit fields are laid out from the lowest bit up. */
module Operations {
  import opened StackSpec
  import opened Words
  import opened Bits

  /** A bit field: its width and the value stored, of which only the low bits fit. */
  datatype Field = Field(width: nat, value: nat)

  function Width(fs: seq<Field>): nat {
    if fs == [] then 0 else fs[0].width + Width(fs[1..])
  }

  /** A struct of bit fields read as one number. */
  function Pack(fs: seq<Field>): nat {
    if fs == [] then 0 else fs[0].value % Power(fs[0].width) + Power(fs[0].width) * Pack(fs[1..])
  }

  /** Field `i` of a word under a layout given by the widths. */
  function Fetch(w: nat, widths: seq<nat>, i: nat): nat
    requires i < |widths|
    decreases i
  {
    if i == 0 then w % Power(widths[0])
    else Fetch(Above(w, Power(widths[0])), widths[1..], i - 1)
  }

  lemma {:induction false} PackFits(fs: seq<Field>)
    ensures Pack(fs) < Power(Width(fs))
  {
    if fs != [] {
      PackFits(fs[1..]);
      PowerSum(fs[0].width, Width(fs[1..]));
      PackStep(fs[0].value % Power(fs[0].width), Power(fs[0].width), Pack(fs[1..]), Power(Width(fs[1..])));
    }
  }

  lemma PackStep(low: nat, p: nat, high: nat, limit: nat)
    requires low < p && high < limit
    ensures low + p * high < p * limit
  {
    assert p * limit == p * high + p * (limit - high);
    ProductSign(p, limit - high);
  }

  /** Any view of a word whose fields have the widths of its first fields reads back what was stored,
      cut to its width; so decoding by casting is right for every struct, and for the struct that
      only names the common first fields. */
  lemma {:induction false} FetchPack(fs: seq<Field>, widths: seq<nat>, i: nat)
    requires i < |widths| <= |fs| && forall k :: 0 <= k < |widths| ==> widths[k] == fs[k].width
    ensures Fetch(Pack(fs), widths, i) == fs[i].value % Power(fs[i].width)
    decreases i
  {
    SplitLow(fs[0].value % Power(fs[0].width), Pack(fs[1..]), Power(fs[0].width));
    if i > 0 {
      FetchPack(fs[1..], widths[1..], i - 1);
    }
  }

  lemma {:induction false} Powers()
    ensures Power(1) == 2 && Power(2) == 4 && Power(6) == 64 && Power(8) == 256 && Power(13) == 8192
    ensures Power(64) == TWO_64
  {
    Power16();
    Power48();
    assert Power(1) == 2 && Power(2) == 4 && Power(5) == 32 && Power(6) == 64;
    hide Power;
    PowerSum(8, 5);
    PowerSum(32, 32);
  }

  // ---- The bytecodes the compiler emits ----

  const OPCODE_BITS: nat := 8
  const OPERAND_BITS: nat := 13
  const OP_LOAD: nat := 1
  const OP_RETURN: nat := 2
  const OP_ADD: nat := 22
  const LOAD_TYPE_IMMEDIATE_LONG: nat := 1
  const MATH_TYPE_DST: nat := 0
  const VALUE_TAG_INT: nat := 2

  function Flag(b: bool): nat {
    if b then 1 else 0
  }

  function LoadLongFields(tag: nat, dst: nat): seq<Field> {
    [Field(OPCODE_BITS, OP_LOAD), Field(2, LOAD_TYPE_IMMEDIATE_LONG), Field(6, tag), Field(OPERAND_BITS, dst)]
  }

  function ReturnFields(hasReturn: bool, src: nat): seq<Field> {
    [Field(OPCODE_BITS, OP_RETURN), Field(1, Flag(hasReturn)), Field(OPERAND_BITS, src)]
  }

  function AddFields(canOverflow: bool, dst: nat, src1: nat, src2: nat): seq<Field> {
    [Field(OPCODE_BITS, OP_ADD), Field(1, MATH_TYPE_DST), Field(1, Flag(canOverflow)), Field(OPERAND_BITS, src1),
     Field(OPERAND_BITS, src2), Field(OPERAND_BITS, dst)]
  }

  function WordOf(fs: seq<Field>): Word
    requires Width(fs) <= 64
  {
    PackFits(fs);
    PowerSum(Width(fs), 64 - Width(fs));
    Powers();
    assert Power(Width(fs)) <= Power(64) by {
      assert Power(Width(fs)) * 1 <= Power(Width(fs)) * Power(64 - Width(fs));
    }
    Pack(fs)
  }

  lemma {:induction false} FieldWidths(tag: nat, b: bool, d: nat, s: nat, t: nat)
    ensures Width(LoadLongFields(tag, d)) == 29
    ensures Width(ReturnFields(b, s)) == 22
    ensures Width(AddFields(b, d, s, t)) == 49
  {
    var l, r, a := LoadLongFields(tag, d), ReturnFields(b, s), AddFields(b, d, s, t);
    assert l[1..][1..][1..][1..] == [] && r[1..][1..][1..] == [] && a[1..][1..][1..][1..][1..][1..] == [];
    WidthStep4(l);
    WidthStep3(r);
    WidthStep3(a);
    WidthStep3(a[3..]);
    assert a[1..][1..][1..] == a[3..];
  }

  lemma {:induction false} WidthStep3(fs: seq<Field>)
    requires |fs| >= 3
    ensures Width(fs) == fs[0].width + fs[1].width + fs[2].width + Width(fs[3..])
  {
    assert fs[1..][1..] == fs[2..] && fs[2..][1..] == fs[3..];
    assert Width(fs[1..]) == fs[1].width + Width(fs[2..]);
    assert Width(fs[2..]) == fs[2].width + Width(fs[3..]);
  }

  lemma {:induction false} WidthStep4(fs: seq<Field>)
    requires |fs| == 4
    ensures Width(fs) == fs[0].width + fs[1].width + fs[2].width + fs[3].width
  {
    WidthStep3(fs);
    assert Width(fs[3..]) == fs[3].width + Width(fs[3..][1..]);
  }

  /** `operands_make_load_immediate_long` fills two words. */
  function MakeLoadImmediateLong(tag: nat, dst: nat, immediate: Word): (r: seq<Word>)
    requires dst <= MAX_FRAME_LENGTH
    ensures |r| == 2
  {
    FieldWidths(tag, false, dst, 0, 0);
    [WordOf(LoadLongFields(tag, dst)), immediate]
  }

  /** `operands_make_return`; the source slot is not checked. */
  function MakeReturn(hasReturn: bool, src: nat): Word {
    FieldWidths(0, hasReturn, 0, src, 0);
    WordOf(ReturnFields(hasReturn, src))
  }

  function MakeAddDst(canOverflow: bool, dst: nat, src1: nat, src2: nat): Word
    requires dst <= MAX_FRAME_LENGTH && src1 <= MAX_FRAME_LENGTH && src2 <= MAX_FRAME_LENGTH
  {
    FieldWidths(0, canOverflow, dst, src1, src2);
    WordOf(AddFields(canOverflow, dst, src1, src2))
  }

  // ---- Decoding ----

  datatype Instruction =
    | LoadImmediateLong(tag: nat, dst: nat)
    | Return(hasReturn: bool, src: nat)
    | AddDst(canOverflow: bool, dst: nat, src1: nat, src2: nat)
    | Other

  const LOAD_LONG_LAYOUT: seq<nat> := [8, 2, 6, 13]
  const RETURN_LAYOUT: seq<nat> := [8, 1, 13]
  const ADD_LAYOUT: seq<nat> := [8, 1, 1, 13, 13, 13]

  /** The handlers' casts: first the opcode alone, then the fields that say which struct it is. */
  function Decode(w: Word): Instruction {
    var opcode := Fetch(w, [8], 0);
    if opcode == OP_LOAD && Fetch(w, [8, 2], 1) == LOAD_TYPE_IMMEDIATE_LONG then
      LoadImmediateLong(Fetch(w, LOAD_LONG_LAYOUT, 2), Fetch(w, LOAD_LONG_LAYOUT, 3))
    else if opcode == OP_RETURN then
      Return(Fetch(w, RETURN_LAYOUT, 1) == 1, Fetch(w, RETURN_LAYOUT, 2))
    else if opcode == OP_ADD && Fetch(w, [8, 1], 1) == MATH_TYPE_DST then
      AddDst(Fetch(w, ADD_LAYOUT, 2) == 1, Fetch(w, ADD_LAYOUT, 5), Fetch(w, ADD_LAYOUT, 3), Fetch(w, ADD_LAYOUT, 4))
    else Other
  }

  lemma {:induction false} DecodeLoad(tag: nat, dst: nat, immediate: Word)
    requires dst <= MAX_FRAME_LENGTH && tag < 64
    ensures Decode(MakeLoadImmediateLong(tag, dst, immediate)[0]) == LoadImmediateLong(tag, dst)
  {
    hide Pack, Fetch, Power, Width;
    var fs := LoadLongFields(tag, dst);
    Powers();
    FetchPack(fs, [8], 0);
    FetchPack(fs, [8, 2], 1);
    FetchPack(fs, LOAD_LONG_LAYOUT, 2);
    FetchPack(fs, LOAD_LONG_LAYOUT, 3);
  }

  /** The 13-bit source comes back only if it fits; a larger one is cut. */
  lemma {:induction false} DecodeReturn(hasReturn: bool, src: nat)
    ensures Decode(MakeReturn(hasReturn, src)) == Return(hasReturn, src % 8192)
  {
    hide Pack, Fetch, Power, Width;
    var fs := ReturnFields(hasReturn, src);
    Powers();
    FetchPack(fs, [8], 0);
    FetchPack(fs, RETURN_LAYOUT, 1);
    FetchPack(fs, RETURN_LAYOUT, 2);
  }

  lemma {:induction false} DecodeAdd(canOverflow: bool, dst: nat, src1: nat, src2: nat)
    requires dst <= MAX_FRAME_LENGTH && src1 <= MAX_FRAME_LENGTH && src2 <= MAX_FRAME_LENGTH
    ensures Decode(MakeAddDst(canOverflow, dst, src1, src2)) == AddDst(canOverflow, dst, src1, src2)
  {
    hide Pack, Fetch, Power, Width;
    var fs := AddFields(canOverflow, dst, src1, src2);
    Powers();
    FetchPack(fs, [8], 0);
    FetchPack(fs, [8, 1], 1);
    FetchPack(fs, ADD_LAYOUT, 2);
    FetchPack(fs, ADD_LAYOUT, 3);
    FetchPack(fs, ADD_LAYOUT, 4);
    FetchPack(fs, ADD_LAYOUT, 5);
  }
}
