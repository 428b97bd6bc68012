/** Strings (src/primitives/string/string.c): up to 23 bytes are kept inline, longer ones in a shared,
    reference-counted buffer. Both are padded with zeroes, which is what lets equality compare whole words
    and whole vector chunks (src/util/simd.c:143-245). */
module CubsString {
  import opened Options
  import opened Utf8
  import opened Words

  const MAX_SSO_LEN: nat := 23
  const SSO_SIZE: nat := 24
  const HEAP_FLAG: nat := 0x8000_0000_0000_0000

  // ---- Owners of a buffer ----

  /** How many strings own a buffer, and how often it has been freed. */
  datatype Owners = Owners(count: nat, frees: nat)

  datatype OwnerOp = CloneOp | DeinitOp

  /** Only a string that owns the buffer can be cloned or given up. */
  function AfterOp(o: Owners, op: OwnerOp): Owners
    requires o.count > 0
  {
    match op
    case CloneOp => o.(count := o.count + 1)
    case DeinitOp => Owners(o.count - 1, if o.count == 1 then o.frees + 1 else o.frees)
  }

  predicate IsRun(o: Owners, ops: seq<OwnerOp>)
    decreases ops
  {
    ops == [] || (o.count > 0 && IsRun(AfterOp(o, ops[0]), ops[1..]))
  }

  function Run(o: Owners, ops: seq<OwnerOp>): Owners
    requires IsRun(o, ops)
    decreases ops
  {
    if ops == [] then o else Run(AfterOp(o, ops[0]), ops[1..])
  }

  function Count(ops: seq<OwnerOp>, op: OwnerOp): nat
    decreases ops
  {
    if ops == [] then 0 else (if ops[0] == op then 1 else 0) + Count(ops[1..], op)
  }

  lemma {:induction false} RunCounts(o: Owners, ops: seq<OwnerOp>)
    requires IsRun(o, ops)
    ensures var r := Run(o, ops);
            && r.count == o.count + Count(ops, CloneOp) - Count(ops, DeinitOp)
            && r.frees == o.frees + (if o.count > 0 && r.count == 0 then 1 else 0)
    decreases ops
  {
    if ops != [] {
      RunCounts(AfterOp(o, ops[0]), ops[1..]);
    }
  }

  lemma {:induction false} RunPrefix(o: Owners, ops: seq<OwnerOp>, n: nat)
    requires IsRun(o, ops) && n <= |ops|
    ensures IsRun(o, ops[..n]) && (n < |ops| ==> Run(o, ops[..n]).count > 0)
    decreases ops
  {
    if n > 0 {
      RunPrefix(AfterOp(o, ops[0]), ops[1..], n - 1);
      assert ops[..n][1..] == ops[1..][..n - 1];
    }
  }

  /** Whatever clones and deinits happen to a buffer with one owner, it is freed at most once, by the last
      owner's deinit, and it is freed if and only if the deinits are one more than the clones. */
  lemma {:induction false} FreedOnceByLastOwner(ops: seq<OwnerOp>)
    requires IsRun(Owners(1, 0), ops)
    ensures Run(Owners(1, 0), ops).frees == if Count(ops, DeinitOp) == Count(ops, CloneOp) + 1 then 1 else 0
    ensures forall n :: 0 <= n < |ops| ==> IsRun(Owners(1, 0), ops[..n]) && Run(Owners(1, 0), ops[..n]).frees == 0
    ensures Run(Owners(1, 0), ops).frees == 1 ==> ops != [] && ops[|ops| - 1] == DeinitOp
  {
    var start := Owners(1, 0);
    RunCounts(start, ops);
    forall n | 0 <= n < |ops| ensures IsRun(start, ops[..n]) && Run(start, ops[..n]).frees == 0 {
      RunPrefix(start, ops, n);
      RunCounts(start, ops[..n]);
    }
    if ops != [] {
      var n := |ops| - 1;
      RunPrefix(start, ops, n);
      RunCounts(start, ops[..n]);
      LastOp(start, ops);
    }
  }

  lemma {:induction false} LastOp(o: Owners, ops: seq<OwnerOp>)
    requires IsRun(o, ops) && ops != []
    ensures var n := |ops| - 1;
            IsRun(o, ops[..n]) && Run(o, ops[..n]).count > 0 && Run(o, ops) == AfterOp(Run(o, ops[..n]), ops[n])
    decreases ops
  {
    var n := |ops| - 1;
    RunPrefix(o, ops, n);
    if n > 0 {
      LastOp(AfterOp(o, ops[0]), ops[1..]);
      assert ops[..n][1..] == ops[1..][..n - 1];
    }
  }

  /** A zero-padded buffer. Its bytes never change after it is filled. */
  class Buffer {
    const bytes: seq<Byte>
    const address: nat
    const countAddress: nat
    var refCount: nat
    var frees: nat

    function State(): Owners
      reads this
    {
      Owners(refCount, frees)
    }

    constructor (bytes: seq<Byte>, address: nat, countAddress: nat)
      ensures this.bytes == bytes && this.address == address && this.countAddress == countAddress
      ensures State() == Owners(1, 0)
    {
      this.bytes := bytes;
      this.address := address;
      this.countAddress := countAddress;
      refCount, frees := 1, 0;
    }
  }

  datatype Rep = Inline(chars: seq<Byte>) | Heap(buffer: Buffer)

  datatype Str = Str(len: nat, rep: Rep)

  /** The bytes of a heap buffer: the terminator and padding to a multiple of 32, always at least one byte. */
  function AllocSize(len: nat): (n: nat)
    ensures n % 32 == 0 && n > len
  {
    NextMultiple32(len + 1);
    len + 1 + (32 - (len + 1) % 32)
  }

  predicate ZeroFrom(bytes: seq<Byte>, start: nat) {
    forall i :: start <= i < |bytes| ==> bytes[i] == 0
  }

  predicate Valid(s: Str) {
    match s.rep
    case Inline(chars) => s.len <= MAX_SSO_LEN && |chars| == SSO_SIZE && ZeroFrom(chars, s.len)
    case Heap(b) => s.len > MAX_SSO_LEN && |b.bytes| == AllocSize(s.len) && ZeroFrom(b.bytes, s.len)
  }

  function Content(s: Str): seq<Byte>
    requires Valid(s)
  {
    match s.rep
    case Inline(chars) => chars[..s.len]
    case Heap(b) => b.bytes[..s.len]
  }

  // ---- Words ----

  /** Bytes read as one little-endian number. */
  function LittleEndian(bs: seq<Byte>): nat {
    if bs == [] then 0 else bs[0] + 0x100 * LittleEndian(bs[1..])
  }

  lemma {:induction false} SameNumberSameBytes(a: seq<Byte>, b: seq<Byte>)
    requires |a| == |b|
    ensures LittleEndian(a) == LittleEndian(b) <==> a == b
    decreases a
  {
    if a != [] {
      SameNumberSameBytes(a[1..], b[1..]);
      assert a == [a[0]] + a[1..] && b == [b[0]] + b[1..];
      assert LittleEndian(a) % 0x100 == a[0] && LittleEndian(b) % 0x100 == b[0];
    }
  }

  /** The four words of the record: the length, and the inline bytes or the pointers and flagged size. */
  function RecordWords(s: Str): seq<nat>
    requires Valid(s)
  {
    match s.rep
    case Inline(c) => [s.len, LittleEndian(c[0..8]), LittleEndian(c[8..16]), LittleEndian(c[16..24])]
    case Heap(b) => [s.len, b.address, b.countAddress, HEAP_FLAG + AllocSize(s.len)]
  }

  lemma {:induction false} ThreeWords(a: seq<Byte>, b: seq<Byte>)
    requires |a| == |b| == SSO_SIZE
    ensures a == b <==>
      && LittleEndian(a[0..8]) == LittleEndian(b[0..8]) && LittleEndian(a[8..16]) == LittleEndian(b[8..16])
      && LittleEndian(a[16..24]) == LittleEndian(b[16..24])
  {
    SameNumberSameBytes(a[0..8], b[0..8]);
    SameNumberSameBytes(a[8..16], b[8..16]);
    SameNumberSameBytes(a[16..24], b[16..24]);
    assert a == a[0..8] + a[8..16] + a[16..24] && b == b[0..8] + b[8..16] + b[16..24];
  }

  /** With equal lengths, padded bytes are equal exactly if the contents are. */
  lemma PaddedEqual(a: seq<Byte>, b: seq<Byte>, len: nat)
    requires |a| == |b| && len <= |a| && ZeroFrom(a, len) && ZeroFrom(b, len)
    ensures a == b <==> a[..len] == b[..len]
  {
    if a[..len] == b[..len] {
      forall i | 0 <= i < |a| ensures a[i] == b[i] {
        assert i < len ==> a[..len][i] == b[..len][i];
      }
    }
  }

  /** A small string differs in one of the four words from every string with another content, large ones
      included, and from no string with the same content. */
  lemma {:induction false} FourWords(s: Str, t: Str)
    requires Valid(s) && Valid(t) && s.rep.Inline?
    ensures RecordWords(s) == RecordWords(t) <==> Content(s) == Content(t)
  {
    hide LittleEndian;
    if t.rep.Inline? && s.len == t.len {
      ThreeWords(s.rep.chars, t.rep.chars);
      PaddedEqual(s.rep.chars, t.rep.chars, s.len);
      assert RecordWords(s)[1] == LittleEndian(s.rep.chars[0..8])
        && RecordWords(s)[2] == LittleEndian(s.rep.chars[8..16]);
    } else {
      assert |Content(s)| == s.len && |Content(t)| == t.len;
      assert RecordWords(s)[0] == s.len && RecordWords(t)[0] == t.len;
    }
  }

  // ---- Vector compares ----

  /** Bytes compared for a string of `len` bytes and its terminator, in whole chunks. */
  function BytesToCheck(len: nat, width: nat): nat
    requires width > 0
  {
    var remainder := (len + 1) % width;
    if remainder != 0 then len + 1 + (width - remainder) else len + 1
  }

  /** Whole chunks never read past the allocation. */
  lemma ChunksInside(len: nat, width: nat)
    requires width == 16 || width == 32
    ensures BytesToCheck(len, width) % width == 0 && len < BytesToCheck(len, width) <= AllocSize(len)
  {
    if width == 16 {
      NextMultiple16(len + 1);
      var n := len + 1;
      assert n == 16 * (n / 16) + n % 16;
      RemainderWithin(n / 16, n % 16);
    } else {
      NextMultiple32(len + 1);
    }
  }

  lemma NextMultiple16(n: nat)
    ensures (n + (16 - n % 16)) % 16 == 0
  {
    assert n == 16 * (n / 16) + n % 16;
    assert n + (16 - n % 16) == 16 * (n / 16 + 1);
  }

  lemma RemainderWithin(q: nat, r: nat)
    requires r < 16
    ensures (16 * q + r) % 32 <= r + 16
  {
    var h := q / 2;
    if q == 2 * h {
      assert 16 * q + r == 32 * h + r;
    } else {
      assert q == 2 * h + 1 && 16 * q + r == 32 * h + (r + 16);
    }
  }

  lemma NextMultiple32(n: nat)
    ensures (n + (32 - n % 32)) % 32 == 0
  {
    assert n == 32 * (n / 32) + n % 32;
    assert n + (32 - n % 32) == 32 * (n / 32 + 1);
  }

  lemma NextChunk16(i: nat, total: nat)
    requires i < total && i % 16 == 0 && total % 16 == 0
    ensures i + 16 <= total && (i + 16) % 16 == 0
  {
  }

  lemma NextChunk32(i: nat, total: nat)
    requires i < total && i % 32 == 0 && total % 32 == 0
    ensures i + 32 <= total && (i + 32) % 32 == 0
  {
  }

  lemma ScalarInside(len: nat)
    ensures len <= AllocSize(len)
  {
  }

  /** `_cubs_simd_cmpeq_strings` as built without vector instructions. */
  method CompareBytes(a: seq<Byte>, b: seq<Byte>, len: nat) returns (equal: bool)
    requires len <= |a| && len <= |b|
    ensures equal <==> a[..len] == b[..len]
  {
    for i := 0 to len
      invariant a[..i] == b[..i]
    {
      if a[i] != b[i] {
        assert a[..len][i] != b[..len][i];
        return false;
      }
    }
    return true;
  }

  /** `_cubs_simd_cmpeq_strings` with chunks of 32 bytes, or of 16, or byte by byte. */
  method CompareBuffers(a: seq<Byte>, b: seq<Byte>, len: nat, width: nat) returns (equal: bool)
    requires (width == 1 || width == 16 || width == 32) && |a| == |b| == AllocSize(len) && ZeroFrom(a, len)
      && ZeroFrom(b, len)
    ensures equal <==> a[..len] == b[..len]
  {
    hide BytesToCheck, AllocSize;
    if width == 1 {
      ScalarInside(len);
      equal := CompareBytes(a, b, len);
      return;
    }
    ChunksInside(len, width);
    PaddedEqual(a, b, len);
    var bytesToCheck := BytesToCheck(len, width);
    var i := 0;
    while i < bytesToCheck
      invariant i <= bytesToCheck && i % width == 0 && a[..i] == b[..i]
      decreases bytesToCheck - i
    {
      if width == 16 {
        NextChunk16(i, bytesToCheck);
      } else {
        NextChunk32(i, bytesToCheck);
      }
      if a[i..i + width] != b[i..i + width] {
        return false;
      }
      ChunkAppend(a, b, i, width);
      i := i + width;
    }
    assert a[..len] == a[..i][..len] && b[..len] == b[..i][..len];
    return true;
  }

  lemma ChunkAppend(a: seq<Byte>, b: seq<Byte>, i: nat, width: nat)
    requires i + width <= |a| && i + width <= |b| && a[..i] == b[..i] && a[i..i + width] == b[i..i + width]
    ensures a[..i + width] == b[..i + width]
  {
    assert a[..i + width] == a[..i] + a[i..i + width] && b[..i + width] == b[..i] + b[i..i + width];
  }

  /** `_cubs_simd_cmpeq_string_slice`: whole chunks of the slice, then its last bytes one by one. */
  method CompareSlice(a: seq<Byte>, slice: seq<Byte>, width: nat) returns (equal: bool)
    requires width > 0 && |slice| <= |a|
    ensures equal <==> a[..|slice|] == slice
  {
    var i := 0;
    if |slice| >= width {
      while i <= |slice| - width
        invariant i <= |slice| && a[..i] == slice[..i]
        decreases |slice| - i
      {
        if a[i..i + width] != slice[i..i + width] {
          assert a[..|slice|][i..i + width] == a[i..i + width];
          return false;
        }
        ChunkAppend(a, slice, i, width);
        i := i + width;
      }
    }
    while i < |slice|
      invariant i <= |slice| && a[..i] == slice[..i]
    {
      if a[i] != slice[i] {
        assert a[..|slice|][i] != slice[i];
        return false;
      }
      i := i + 1;
    }
    assert slice[..i] == slice;
    return true;
  }

  // ---- Strings ----

  /** Bytes copied into zeroed memory of a size. */
  function Padded(content: seq<Byte>, size: nat): (r: seq<Byte>)
    requires |content| <= size
    ensures |r| == size && r[..|content|] == content && ZeroFrom(r, |content|)
  {
    content + seq(size - |content|, _ => 0)
  }

  /** `cubs_string_init_unchecked`; the addresses are those the allocator gives to a heap
      buffer and its count. */
  method InitUnchecked(slice: seq<Byte>, address: nat, countAddress: nat) returns (s: Str)
    ensures Valid(s) && Content(s) == slice
    ensures s.len == |slice|
    ensures |slice| <= 23 ==> s.rep.Inline? && s.rep.chars == slice + seq(24 - |slice|, _ => 0)
    ensures |slice| > 23 ==>
      s.rep.Heap? && s.rep.buffer.bytes == slice + seq(((|slice| + 1) / 32 + 1) * 32 - |slice|, _ => 0)
    ensures s.rep.Heap? ==> fresh(s.rep.buffer) && s.rep.buffer.State() == Owners(1, 0)
  {
    if |slice| <= MAX_SSO_LEN {
      return Str(|slice|, Inline(Padded(slice, SSO_SIZE)));
    }
    var remainder := (|slice| + 1) % 32;
    var requiredStringAllocation := |slice| + 1 + (32 - remainder);
    var buffer := new Buffer(Padded(slice, requiredStringAllocation), address, countAddress);
    s := Str(|slice|, Heap(buffer));
  }

  /** `cubs_string_init`; `behind` is the memory behind the slice. */
  method Init(slice: seq<Byte>, behind: seq<Byte>, address: nat, countAddress: nat) returns (out: Option<Str>)
    requires |behind| >= 3
    ensures out.Some? <==> Accepted(slice, behind)
    ensures out.Some? ==> Valid(out.value) && Content(out.value) == slice
    ensures out.Some? && out.value.rep.Heap? ==>
      fresh(out.value.rep.buffer) && out.value.rep.buffer.State() == Owners(1, 0)
  {
    var valid := IsValid(slice, behind);
    if !valid {
      return None;
    }
    var s := InitUnchecked(slice, address, countAddress);
    out := Some(s);
  }

  /** `cubs_string_eql` */
  method Equal(s: Str, t: Str, width: nat) returns (equal: bool)
    requires Valid(s) && Valid(t) && (width == 1 || width == 16 || width == 32)
    ensures equal <==> Content(s) == Content(t)
  {
    hide LittleEndian, AllocSize;
    if s.rep.Inline? {
      FourWords(s, t);
      var a, b := RecordWords(s), RecordWords(t);
      return a[0] == b[0] && a[1] == b[1] && a[2] == b[2] && a[3] == b[3];
    }
    if s.len != t.len {
      assert |Content(s)| != |Content(t)|;
      return false;
    }
    if s.rep.buffer == t.rep.buffer {
      return true;
    }
    equal := CompareBuffers(s.rep.buffer.bytes, t.rep.buffer.bytes, s.len, width);
  }

  /** `cubs_string_eql_slice` */
  method EqualSlice(s: Str, slice: seq<Byte>, width: nat) returns (equal: bool)
    requires Valid(s) && width > 0
    ensures equal <==> Content(s) == slice
  {
    hide LittleEndian, AllocSize;
    if s.len != |slice| {
      assert |Content(s)| != |slice|;
      return false;
    }
    match s.rep
    case Inline(chars) =>
      var buf := Padded(slice, SSO_SIZE);
      ThreeWords(chars, buf);
      PaddedEqual(chars, buf, s.len);
      equal := LittleEndian(chars[0..8]) == LittleEndian(buf[0..8])
        && LittleEndian(chars[8..16]) == LittleEndian(buf[8..16])
               && LittleEndian(chars[16..24]) == LittleEndian(buf[16..24]);
    case Heap(b) => equal := CompareSlice(b.bytes, slice, width);
  }

  /** Copying bytes into a buffer at an index. */
  function CopyAt(buf: seq<Byte>, at: nat, bytes: seq<Byte>): (r: seq<Byte>)
    requires at + |bytes| <= |buf|
    ensures |r| == |buf|
  {
    buf[..at] + bytes + buf[at + |bytes|..]
  }

  lemma CopyBehind(a: seq<Byte>, b: seq<Byte>, size: nat)
    requires |a| + |b| <= size
    ensures CopyAt(Padded(a, size), |a|, b) == Padded(a + b, size)
  {
    var r := CopyAt(Padded(a, size), |a|, b);
    assert forall i :: 0 <= i < size ==> r[i] == Padded(a + b, size)[i];
  }

  /** `cubs_string_concat`: a zeroed buffer of the total size, with the second text copied in behind the first. */
  method Concat(s: Str, t: Str, address: nat, countAddress: nat) returns (r: Str)
    requires Valid(s) && Valid(t)
    ensures Valid(r) && Content(r) == Content(s) + Content(t) && r.len == s.len + t.len
    ensures r.len <= 23 ==> r.rep.Inline? && r.rep.chars == Content(s) + Content(t) + seq(24 - r.len, _ => 0)
    ensures r.len > 23 ==>
      r.rep.Heap? && r.rep.buffer.bytes == Content(s) + Content(t) + seq(((r.len + 1) / 32 + 1) * 32 - r.len, _ => 0)
    ensures r.rep.Heap? ==> fresh(r.rep.buffer) && r.rep.buffer.State() == Owners(1, 0)
  {
    hide CopyAt;
    var lhs, rhs := Content(s), Content(t);
    var totalLen := s.len + t.len;
    if totalLen <= MAX_SSO_LEN {
      CopyBehind(lhs, rhs, SSO_SIZE);
      return Str(totalLen, Inline(CopyAt(Padded(lhs, SSO_SIZE), s.len, rhs)));
    }
    var remainder := (totalLen + 1) % 32;
    var requiredStringAllocation := totalLen + 1 + (32 - remainder);
    CopyBehind(lhs, rhs, requiredStringAllocation);
    var buf := CopyAt(Padded(lhs, requiredStringAllocation), s.len, rhs);
    var buffer := new Buffer(buf, address, countAddress);
    r := Str(totalLen, Heap(buffer));
  }

  /** `cubs_string_clone`: the record is copied, and a heap buffer has one more owner. */
  method Clone(s: Str) returns (r: Str)
    requires Valid(s) && (s.rep.Heap? ==> s.rep.buffer.refCount > 0)
    modifies if s.rep.Heap? then {s.rep.buffer} else {}
    ensures r == s
    ensures s.rep.Heap? ==> s.rep.buffer.State() == AfterOp(old(s.rep.buffer.State()), CloneOp)
  {
    if s.rep.Heap? {
      s.rep.buffer.refCount := s.rep.buffer.refCount + 1;
    }
    r := s;
  }

  /** `cubs_string_deinit`: the buffer is freed by its last owner. */
  method Deinit(s: Str)
    requires Valid(s) && (s.rep.Heap? ==> s.rep.buffer.refCount > 0)
    modifies if s.rep.Heap? then {s.rep.buffer} else {}
    ensures s.rep.Heap? ==> s.rep.buffer.State() == AfterOp(old(s.rep.buffer.State()), DeinitOp)
  {
    if s.rep.Heap? {
      s.rep.buffer.refCount := s.rep.buffer.refCount - 1;
      if s.rep.buffer.refCount == 0 {
        s.rep.buffer.frees := s.rep.buffer.frees + 1;
      }
    }
  }

  // ---- Searching ----

  predicate MatchAt(s: seq<Byte>, needle: seq<Byte>, i: nat): (m: bool)
    ensures m <==> i + |needle| <= |s| && forall k :: 0 <= k < |needle| ==> needle[k] == s[i + k]
  {
    i + |needle| <= |s| && s[i..i + |needle|] == needle
  }

  /** The first occurrence from `start` on; none means -1. */
  ghost predicate IsFirst(s: seq<Byte>, needle: seq<Byte>, start: nat, r: int) {
    && (r >= 0 ==> start <= r && MatchAt(s, needle, r) && forall i :: start <= i < r ==> !MatchAt(s, needle, i))
    && (r < 0 ==> r == -1 && forall i :: start <= i ==> !MatchAt(s, needle, i))
  }

  method MatchesAt(s: seq<Byte>, needle: seq<Byte>, i: nat) returns (equal: bool)
    requires i + |needle| <= |s|
    ensures equal <==> MatchAt(s, needle, i)
  {
    for k := 0 to |needle|
      invariant s[i..i + k] == needle[..k]
    {
      if s[i + k] != needle[k] {
        assert s[i..i + |needle|][k] != needle[k];
        return false;
      }
      assert s[i..i + k + 1] == s[i..i + k] + [s[i + k]] && needle[..k + 1] == needle[..k] + [needle[k]];
    }
    assert needle[..|needle|] == needle;
    return true;
  }

  /** `index_of_pos_linear` */
  method IndexOfLinear(s: seq<Byte>, needle: seq<Byte>, start: nat) returns (r: int)
    requires |needle| <= |s|
    ensures IsFirst(s, needle, start, r)
  {
    var i := start;
    while i <= |s| - |needle|
      invariant start <= i && forall k :: start <= k < i ==> !MatchAt(s, needle, k)
      decreases |s| - i
    {
      var equal := MatchesAt(s, needle, i);
      if equal {
        return i;
      }
      i := i + 1;
    }
    return -1;
  }

  /** `cubs_string_find`; -1 stands for `CUBS_STRING_N_POS`. It is the first occurrence, except that an
      occurrence that starts where the search does and ends the string is missed, and that an empty text is
      never found. */
  method Find(s: seq<Byte>, needle: seq<Byte>, start: nat) returns (r: int)
    ensures IsFirst(s, needle, start, r)
       <==> !(start + |needle| == |s| && MatchAt(s, needle, start)) && !(needle == [] && start < |s|)
    ensures r != -1 ==>
      start <= r <= |s| - |needle| && MatchAt(s, needle, r) && forall i :: start <= i < r ==> !MatchAt(s, needle, i)
    ensures r == -1 <==>
      needle == [] || start + |needle| >= |s| || forall i :: start <= i ==> !MatchAt(s, needle, i)
  {
    if |needle| > |s| || start + |needle| >= |s| {
      return -1;
    }
    if start > |s| || |needle| == 0 {
      assert MatchAt(s, [], start);
      return -1;
    }
    r := IndexOfLinear(s, needle, start);
  }
}
