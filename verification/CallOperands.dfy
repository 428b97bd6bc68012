/** Calls and syncs in bytecode (src/interpreter/operations.c:52-87, 135-205, src/interpreter/interpreter.c:165-228,
    314-347): a head word and 16-bit entries, four to a word, written in a loop and read back by the handlers. */
module CallOperands {
  import opened StackSpec
  import opened Words
  import opened Options
  import opened CallArgs
  import opened Operations
  import opened Bits

  /** Words for `n` 16-bit entries, as both sides compute it. */
  function EntryWords(n: nat): nat {
    if n % 4 == 0 then n / 4 else n / 4 + 1
  }

  /** The entries stored from word `start` on. */
  ghost predicate Stored(code: seq<Word>, start: nat, entries: seq<nat>, n: nat) {
    && n <= |entries| && start + EntryWords(|entries|) <= |code|
    && forall i :: 0 <= i < n ==> Lane(code[start + i / 4], i % 4) == entries[i]
  }

  lemma EntryInside(i: nat, n: nat)
    requires i < n
    ensures i / 4 < EntryWords(n)
  {
  }

  lemma {:induction false} StoreNext(code: seq<Word>, start: nat, entries: seq<nat>, n: nat)
    requires Stored(code, start, entries, n) && n < |entries| && entries[n] < 0x1_0000
    ensures start + n / 4 < |code|
    ensures Stored(code[start + n / 4 := SetLane(code[start + n / 4], n % 4, entries[n])], start, entries, n + 1)
  {
    hide SetLane, EntryWords;
    EntryInside(n, |entries|);
    var w := start + n / 4;
    var r := code[w := SetLane(code[w], n % 4, entries[n])];
    forall i | 0 <= i < n + 1 ensures Lane(r[start + i / 4], i % 4) == entries[i] {
      EntryInside(i, |entries|);
      LaneWritten(code[w], n % 4, entries[n], i % 4);
      SameLane(i, n);
    }
  }

  lemma SameLane(i: nat, n: nat)
    ensures i / 4 == n / 4 && i % 4 == n % 4 ==> i == n
  {
  }

  lemma {:induction false} LaneWritten(w: Word, j: nat, v: nat, k: nat)
    requires j < 4 && v < 0x1_0000
    ensures Lane(SetLane(w, j, v), k) == if k == j then v else Lane(w, k)
  {
    WithLaneAt(w, j, v, k);
  }

  /** Stores the entries one after the other into a caller's buffer. */
  method StoreEntries(code: seq<Word>, start: nat, entries: seq<nat>) returns (r: seq<Word>)
    requires start + EntryWords(|entries|) <= |code| && forall i :: 0 <= i < |entries| ==> entries[i] < 0x1_0000
    ensures |r| == |code| && r[..start] == code[..start] && Stored(r, start, entries, |entries|)
  {
    hide SetLane, EntryWords;
    r := code;
    for i := 0 to |entries|
      invariant |r| == |code| && r[..start] == code[..start] && Stored(r, start, entries, i)
    {
      StoreNext(r, start, entries, i);
      r := r[start + i / 4 := SetLane(r[start + i / 4], i % 4, entries[i])];
    }
  }

  /** The entries as a handler finds them. */
  function Entries(code: seq<Word>, start: nat, n: nat): (r: seq<nat>)
    requires start + EntryWords(n) <= |code|
    ensures |r| == n
    decreases n
  {
    if n == 0 then []
    else
      EntryInside(n - 1, n);
      Entries(code, start, n - 1) + [Lane(code[start + (n - 1) / 4], (n - 1) % 4)]
  }

  lemma {:induction false} ReadBack(code: seq<Word>, start: nat, entries: seq<nat>, n: nat)
    requires Stored(code, start, entries, |entries|) && n <= |entries|
    ensures start + EntryWords(n) <= |code| && Entries(code, start, n) == entries[..n]
    decreases n
  {
    MoreWords(n, |entries|);
    if n > 0 {
      ReadBack(code, start, entries, n - 1);
      assert entries[..n] == entries[..n - 1] + [entries[n - 1]];
    }
  }

  lemma Words4(n: nat)
    ensures EntryWords(n) == (n + 3) / 4
  {
  }

  lemma MoreWords(n: nat, k: nat)
    requires n <= k
    ensures EntryWords(n) <= EntryWords(k)
  {
  }

  /** The handler's loop over the entries. */
  method ReadEntries(code: seq<Word>, start: nat, n: nat) returns (entries: seq<nat>)
    requires start + EntryWords(n) <= |code|
    ensures entries == Entries(code, start, n)
  {
    hide EntryWords;
    entries := [];
    MoreWords(0, n);
    for i := 0 to n
      invariant start + EntryWords(i) <= |code| && entries == Entries(code, start, i)
    {
      EntryInside(i, n);
      MoreWords(i + 1, n);
      entries := entries + [Lane(code[start + i / 4], i % 4)];
    }
  }

  // ---- Calls ----

  const OP_CALL: nat := 3
  const OP_SYNC: nat := 6
  const CALL_LAYOUT: seq<nat> := [8, 1, 13, 1, 13, 1]

  function CallFields(argCount: nat, hasReturn: bool, returnDst: nat, isScript: bool): seq<Field> {
    [Field(8, OP_CALL), Field(1, 0), Field(13, argCount), Field(1, Flag(hasReturn)), Field(13, returnDst),
      Field(1, Flag(isScript))]
  }

  lemma {:induction false} CallWidth(argCount: nat, hasReturn: bool, returnDst: nat, isScript: bool)
    ensures Width(CallFields(argCount, hasReturn, returnDst, isScript)) == 37
  {
    var fs := CallFields(argCount, hasReturn, returnDst, isScript);
    WidthStep3(fs);
    WidthStep3(fs[3..]);
    assert fs[3..][3..] == [];
  }

  function CallHead(argCount: nat, hasReturn: bool, returnDst: nat, isScript: bool): Word {
    CallWidth(argCount, hasReturn, returnDst, isScript);
    WordOf(CallFields(argCount, hasReturn, returnDst, isScript))
  }

  lemma {:induction false} DecodeCallHead(argCount: nat, hasReturn: bool, returnDst: nat, isScript: bool)
    ensures var w := CallHead(argCount, hasReturn, returnDst, isScript);
            && Fetch(w, [8], 0) == OP_CALL && Fetch(w, CALL_LAYOUT, 1) == 0
              && Fetch(w, CALL_LAYOUT, 2) == argCount % 8192
            && Fetch(w, CALL_LAYOUT, 3) == Flag(hasReturn) && Fetch(w, CALL_LAYOUT, 4) == returnDst % 8192
            && Fetch(w, CALL_LAYOUT, 5) == Flag(isScript)
  {
    hide Pack, Fetch, Power, Width;
    var fs := CallFields(argCount, hasReturn, returnDst, isScript);
    Powers();
    FetchPack(fs, [8], 0);
    FetchPack(fs, CALL_LAYOUT, 1);
    FetchPack(fs, CALL_LAYOUT, 2);
    FetchPack(fs, CALL_LAYOUT, 3);
    FetchPack(fs, CALL_LAYOUT, 4);
    FetchPack(fs, CALL_LAYOUT, 5);
  }

  /** A call as the handler sees it, with the words by which it moves on. The return slot is looked at only if
      there is a return. */
  datatype CallRead = CallRead(args: seq<nat>, returnDst: Option<nat>, isScript: bool, func: Word, length: nat)

  function ReturnSlot(hasReturn: bool, slot: nat): Option<nat> {
    if hasReturn then Some(slot) else None
  }

  /** `cubs_operands_make_call_immediate` */
  method MakeCallImmediate(buffer: seq<Word>, args: seq<nat>, hasReturn: bool, returnSrc: nat, isScript: bool,
                           func: Word)
    returns (code: seq<Word>)
    requires |args| < 0x1_0000 && (forall i :: 0 <= i < |args| ==> args[i] <= MAX_FRAME_LENGTH)
    requires (hasReturn ==> returnSrc <= MAX_FRAME_LENGTH) && |buffer| >= 2 + EntryWords(|args|)
    ensures |code| == |buffer| && code[0] == CallHead(|args|, hasReturn, returnSrc, isScript) && code[1] == func
    ensures Stored(code, 2, args, |args|)
  {
    hide EntryWords, CallHead;
    code := buffer[0 := CallHead(|args|, hasReturn, returnSrc, isScript)];
    code := code[1 := func];
    ghost var head := code[..2];
    code := StoreEntries(code, 2, args);
    assert code[0] == code[..2][0] == head[0] && code[1] == code[..2][1] == head[1];
  }

  /** The part of `execute_call` that reads an immediate call. */
  method ReadCallImmediate(code: seq<Word>) returns (r: CallRead)
    requires |code| >= 2 && |code| >= 2 + EntryWords(Fetch(code[0], CALL_LAYOUT, 2))
    ensures r == CallRead(Entries(code, 2, Fetch(code[0], CALL_LAYOUT, 2)),
                          ReturnSlot(Fetch(code[0], CALL_LAYOUT, 3) == 1, Fetch(code[0], CALL_LAYOUT, 4)),
                          Fetch(code[0], CALL_LAYOUT, 5) == 1, code[1],
                          2 + EntryWords(Fetch(code[0], CALL_LAYOUT, 2)))
  {
    hide EntryWords, Fetch;
    var argCount := Fetch(code[0], CALL_LAYOUT, 2);
    var args := ReadEntries(code, 2, argCount);
    var returnDst := if Fetch(code[0], CALL_LAYOUT, 3) == 1 then Some(Fetch(code[0], CALL_LAYOUT, 4)) else None;
    r := CallRead(args, returnDst, Fetch(code[0], CALL_LAYOUT, 5) == 1, code[1], 2 + EntryWords(argCount));
  }

  /** A call written and read back: the handler sees the same call and moves on by exactly the words written,
      if and only if there are at most 8191 arguments; of more, only the count's low 13 bits arrive. */
  method CallRoundTrip(buffer: seq<Word>, args: seq<nat>, hasReturn: bool, returnSrc: nat, isScript: bool, func: Word)
    returns (r: CallRead)
    requires |args| < 0x1_0000 && (forall i :: 0 <= i < |args| ==> args[i] <= MAX_FRAME_LENGTH)
    requires (hasReturn ==> returnSrc <= MAX_FRAME_LENGTH) && |buffer| >= 2 + EntryWords(|args|)
    ensures r == CallRead(args, if hasReturn then Some(returnSrc) else None, isScript, func, 2 + (|args| + 3) / 4)
      <==> |args| < 8192
    ensures r == CallRead(args[..|args| % 8192], if hasReturn then Some(returnSrc) else None, isScript, func,
      2 + (|args| % 8192 + 3) / 4)
  {
    hide EntryWords, CallHead, Fetch, Stored;
    DecodeCallHead(|args|, hasReturn, returnSrc, isScript);
    MoreWords(|args| % 8192, |args|);
    Words4(|args|);
    Words4(|args| % 8192);
    var code := MakeCallImmediate(buffer, args, hasReturn, returnSrc, isScript, func);
    ReadBack(code, 2, args, |args| % 8192);
    r := ReadCallImmediate(code);
    CutArgs(args, if hasReturn then Some(returnSrc) else None, isScript, func);
  }

  /** The low 13 bits of the count are all of it just if there are at most 8191 arguments. */
  lemma CutArgs(args: seq<nat>, returnDst: Option<nat>, isScript: bool, func: Word)
    ensures CallRead(args[..|args| % 8192], returnDst, isScript, func, 2 + (|args| % 8192 + 3) / 4)
         == CallRead(args, returnDst, isScript, func, 2 + (|args| + 3) / 4)
      <==> |args| < 8192
  {
    if |args| < 8192 {
      assert args[..|args| % 8192] == args;
    } else {
      assert |args[..|args| % 8192]| < |args|;
    }
  }

  // ---- Syncs ----

  /** A slot to lock and the kind of lock: 13 bits and one. */
  datatype Source = Source(src: nat, write: bool)

  function SourceFields(s: Source): seq<Field> {
    [Field(13, s.src), Field(1, Flag(s.write)), Field(2, 0)]
  }

  const SOURCE_LAYOUT: seq<nat> := [13, 1]

  /** The 16-bit form of a source. */
  function SourceEntry(s: Source): nat {
    Pack(SourceFields(s))
  }

  function EntrySource(e: nat): Source {
    Source(Fetch(e, SOURCE_LAYOUT, 0), Fetch(e, SOURCE_LAYOUT, 1) == 1)
  }

  lemma {:induction false} SourceRoundTrip(s: Source)
    requires s.src <= MAX_FRAME_LENGTH
    ensures SourceEntry(s) < 0x1_0000 && EntrySource(SourceEntry(s)) == s
  {
    hide Pack, Fetch, Power, Width;
    var fs := SourceFields(s);
    Powers();
    PowerSum(8, 8);
    SourceWidth(fs);
    PackFits(fs);
    FetchPack(fs, SOURCE_LAYOUT, 0);
    FetchPack(fs, SOURCE_LAYOUT, 1);
  }

  lemma SourceWidth(fs: seq<Field>)
    requires |fs| == 3 && fs[0].width == 13 && fs[1].width == 1 && fs[2].width == 2
    ensures Width(fs) == 16
  {
    WidthStep3(fs);
    assert fs[3..] == [];
  }

  /** The head's fields do not share 16-bit units: the count and the two inline sources have one each. */
  function SyncFields(num: nat, first: nat, second: nat): seq<Field> {
    [Field(8, OP_SYNC), Field(1, 0), Field(7, 0), Field(13, num), Field(3, 0), Field(16, first), Field(16, second)]
  }

  const SYNC_LAYOUT: seq<nat> := [8, 1, 7, 13, 3, 16, 16]

  lemma {:induction false} SyncWidth(num: nat, first: nat, second: nat)
    ensures Width(SyncFields(num, first, second)) == 64
  {
    var fs := SyncFields(num, first, second);
    WidthStep3(fs);
    WidthStep3(fs[3..]);
    assert fs[3..][3..] == [Field(16, second)] && fs[3..][3..][1..] == [];
    assert Width(fs[3..][3..]) == 16 + Width(fs[3..][3..][1..]);
  }

  function SyncHead(num: nat, first: nat, second: nat): Word {
    SyncWidth(num, first, second);
    WordOf(SyncFields(num, first, second))
  }

  lemma {:induction false} DecodeSyncHead(num: nat, first: nat, second: nat)
    requires first < 0x1_0000 && second < 0x1_0000
    ensures var w := SyncHead(num, first, second);
            && Fetch(w, [8], 0) == OP_SYNC && Fetch(w, SYNC_LAYOUT, 1) == 0 && Fetch(w, SYNC_LAYOUT, 3) == num % 8192
            && Fetch(w, SYNC_LAYOUT, 5) == first && Fetch(w, SYNC_LAYOUT, 6) == second
  {
    hide Pack, Fetch, Power, Width;
    var fs := SyncFields(num, first, second);
    Powers();
    PowerSum(8, 8);
    FetchPack(fs, [8], 0);
    FetchPack(fs, SYNC_LAYOUT, 1);
    FetchPack(fs, SYNC_LAYOUT, 3);
    FetchPack(fs, SYNC_LAYOUT, 5);
    FetchPack(fs, SYNC_LAYOUT, 6);
  }

  /** `cubs_operands_sync_bytecode_required` */
  function SyncWords(num: nat): (n: nat)
    ensures n >= 1
  {
    if num > 2 then 1 + EntryWords(num - 2) else 1
  }

  function SourceEntries(ss: seq<Source>): (r: seq<nat>)
    ensures |r| == |ss| && forall i :: 0 <= i < |ss| ==> r[i] == SourceEntry(ss[i])
  {
    seq(|ss|, i requires 0 <= i < |ss| => SourceEntry(ss[i]))
  }

  /** `cubs_operands_make_sync`, locking form. */
  method MakeSync(buffer: seq<Word>, sources: seq<Source>) returns (code: seq<Word>, used: nat)
    requires 0 < |sources| < 0x1_0000 && (forall i :: 0 <= i < |sources| ==> sources[i].src <= MAX_FRAME_LENGTH)
    requires |buffer| >= SyncWords(|sources|)
    ensures used == SyncWords(|sources|) && |code| == |buffer|
    ensures code[0] == SyncHead(|sources|, SourceEntry(sources[0]), if |sources| > 1 then SourceEntry(sources[1])
      else 0)
    ensures |sources| > 2 ==> Stored(code, 1, SourceEntries(sources[2..]), |sources| - 2)
  {
    hide EntryWords, SyncHead, SourceEntry, Stored;
    used := SyncWords(|sources|);
    code := buffer[0 := SyncHead(|sources|, SourceEntry(sources[0]), if |sources| > 1 then SourceEntry(sources[1])
      else 0)];
    if |sources| > 2 {
      forall i | 2 <= i < |sources| ensures SourceEntry(sources[i]) < 0x1_0000 {
        SourceRoundTrip(sources[i]);
      }
      ghost var head := code[..1];
      code := StoreEntries(code, 1, SourceEntries(sources[2..]));
      assert code[0] == code[..1][0] == head[0];
    }
  }

  /** The part of `execute_sync` that reads the sources; `increment` is how far it moves on. */
  method ReadSync(code: seq<Word>) returns (sources: seq<Source>, increment: nat)
    requires |code| > 0 && |code| >= SyncWords(Fetch(code[0], SYNC_LAYOUT, 3))
    ensures var num := Fetch(code[0], SYNC_LAYOUT, 3);
            && increment == SyncWords(num) && |sources| == (if num > 1 then num else 1)
            && sources[0] == EntrySource(Fetch(code[0], SYNC_LAYOUT, 5))
            && (num > 1 ==> sources[1] == EntrySource(Fetch(code[0], SYNC_LAYOUT, 6)))
            && forall i :: 2 <= i < num ==> sources[i] == EntrySource(Entries(code, 1, num - 2)[i - 2])
  {
    hide EntryWords, Fetch, EntrySource, Entries;
    var num := Fetch(code[0], SYNC_LAYOUT, 3);
    sources := [EntrySource(Fetch(code[0], SYNC_LAYOUT, 5))];
    increment := 1;
    if num > 1 {
      sources := sources + [EntrySource(Fetch(code[0], SYNC_LAYOUT, 6))];
      var extended := num - 2;
      if extended > 0 {
        var entries := ReadEntries(code, 1, extended);
        for i := 0 to extended
          invariant |sources| == 2 + i
          invariant sources[0] == EntrySource(Fetch(code[0], SYNC_LAYOUT, 5))
          invariant sources[1] == EntrySource(Fetch(code[0], SYNC_LAYOUT, 6))
          invariant forall k :: 2 <= k < 2 + i ==> sources[k] == EntrySource(entries[k - 2])
        {
          sources := sources + [EntrySource(entries[i])];
        }
        increment := 1 + EntryWords(extended);
      }
    }
  }

  /** A sync written and read back: the handler locks the same sources in the same modes and moves on by the
      words written, if and only if there are fewer than 8192 sources; of more, only the count's low 13 bits arrive. */
  method SyncRoundTrip(buffer: seq<Word>, sources: seq<Source>) returns (r: seq<Source>, used: nat, increment: nat)
    requires 0 < |sources| < 0x1_0000 && (forall i :: 0 <= i < |sources| ==> sources[i].src <= MAX_FRAME_LENGTH)
    requires |buffer| >= SyncWords(|sources|)
    ensures used == 1 + (if |sources| > 2 then (|sources| + 1) / 4 else 0)
    ensures r == sources && increment == used <==> |sources| < 8192
    ensures var num := |sources| % 8192;
      && r == sources[..if num > 1 then num else 1] && increment == 1 + (if num > 2 then (num + 1) / 4 else 0)
  {
    hide EntryWords, SyncHead, SourceEntry, EntrySource, Stored, Entries, Fetch;
    var n := |sources|;
    ghost var num := n % 8192;
    var code;
    code, used := MakeSync(buffer, sources);
    forall i | 0 <= i < n
      ensures SourceEntry(sources[i]) < 0x1_0000 && EntrySource(SourceEntry(sources[i])) == sources[i]
    {
      SourceRoundTrip(sources[i]);
    }
    DecodeSyncHead(n, SourceEntry(sources[0]), if n > 1 then SourceEntry(sources[1]) else 0);
    SyncShorter(num, n);
    SyncLength(num);
    SyncLength(n);
    r, increment := ReadSync(code);
    if num > 2 {
      ReadBack(code, 1, SourceEntries(sources[2..]), num - 2);
    }
    assert r == sources[..if num > 1 then num else 1];
    assert n >= 8192 ==> |r| < n;
    assert n < 8192 ==> sources[..if num > 1 then num else 1] == sources;
  }

  lemma SyncLength(num: nat)
    ensures SyncWords(num) == 1 + (if num > 2 then (num + 1) / 4 else 0)
  {
    hide EntryWords;
    if num > 2 {
      Words4(num - 2);
    }
  }

  lemma SyncShorter(m: nat, n: nat)
    requires m <= n
    ensures SyncWords(m) <= SyncWords(n)
  {
    hide EntryWords;
    if m > 2 {
      MoreWords(m - 2, n - 2);
    }
  }
}
