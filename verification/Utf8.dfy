/** The UTF-8 test in front of every new string (src/util/utf8.c), beside the definition of UTF-8 in
    sections 3 and 4 of RFC 3629. The test looks at leading bits only, and it may look behind the slice. */
module Utf8 {
  import opened Bits
  import opened Words

  // ---- The test ----

  predicate Trailing(b: Byte) {
    0x80 <= b < 0xC0
  }

  ghost predicate AllTrailing(bs: seq<Byte>) {
    forall i :: 0 <= i < |bs| ==> Trailing(bs[i])
  }

  /** How many bytes a character that starts with this byte has; none starts with a 0 or a trailing byte. */
  function GroupLength(lead: Byte): nat {
    if 0 < lead < 0x80 then 1
    else if 0xC0 <= lead < 0xE0 then 2
    else if 0xE0 <= lead < 0xF0 then 3
    else if 0xF0 <= lead < 0xF8 then 4
    else 0
  }

  /** What the test says of a slice, which depends on the bytes behind it where the last group is cut. */
  ghost predicate Accepted(text: seq<Byte>, behind: seq<Byte>)
    requires |behind| >= 3
  {
    text == [] ||
    (var n := GroupLength(text[0]);
     && n > 0 && AllTrailing((text + behind)[1..n])
     && (n < |text| ==> Accepted(text[n..], behind)))
  }

  lemma PowerStep(n: nat)
    requires n > 0
    ensures Power(n) == 2 * Power(n - 1)
  {
  }

  lemma ShiftNone(m: nat)
    ensures ShiftLeft(m, 0) == m && m % Power(0) == 0
  {
  }

  lemma AllBits(w: nat, k: nat)
    requires w < Power(k)
    ensures And(w, ShiftLeft(Power(k) - 1, 0)) == w - w % Power(0)
  {
    hide And, Power, ShiftLeft;
    ShiftNone(w);
    ShiftNone(Power(k) - 1);
    MaskLow(w, k);
    DivModUnique(w, Power(k), 0, w);
  }

  /** Masking with `k` bits above the lowest `n` clears those. */
  lemma {:induction false} TopBits(w: nat, n: nat, k: nat)
    requires w < Power(n + k)
    ensures And(w, ShiftLeft(Power(k) - 1, n)) == w - w % Power(n)
    decreases n
  {
    hide And, ShiftLeft, ShiftRight, Power;
    if n == 0 {
      AllBits(w, k);
    } else {
      PowerStep(n);
      PowerStep(n + k);
      ShiftTwice(Power(k) - 1, n);
      TopBits(w / 2, n - 1, k);
      AndEven(w, ShiftLeft(Power(k) - 1, n - 1));
      HalfMod(w, Power(n - 1));
    }
  }

  /** The code's masks are ranges of bytes. */
  lemma LeadingBits(b: Byte)
    ensures And(b, 0x80) == 0 <==> b < 0x80
    ensures And(b, 0xC0) == 0x80 <==> Trailing(b)
    ensures And(b, 0xE0) == 0xC0 <==> 0xC0 <= b < 0xE0
    ensures And(b, 0xF0) == 0xE0 <==> 0xE0 <= b < 0xF0
    ensures And(b, 0xF8) == 0xF0 <==> 0xF0 <= b < 0xF8
  {
    hide And;
    assert Power(1) == 2 && Power(2) == 4 && Power(3) == 8 && Power(4) == 0x10 && Power(5) == 0x20;
    assert Power(6) == 0x40 && Power(7) == 0x80 && Power(8) == 0x100;
    assert ShiftLeft(1, 7) == 0x80 && ShiftLeft(3, 6) == 0xC0 && ShiftLeft(7, 5) == 0xE0;
    assert ShiftLeft(0xF, 4) == 0xF0 && ShiftLeft(0x1F, 3) == 0xF8;
    hide Power, ShiftLeft;
    TopBits(b, 7, 1);
    TopBits(b, 6, 2);
    TopBits(b, 5, 3);
    TopBits(b, 4, 4);
    TopBits(b, 3, 5);
  }

  method IsTrailing(b: Byte) returns (trailing: bool)
    ensures trailing <==> Trailing(b)
  {
    LeadingBits(b);
    trailing := And(b, 0xC0) == 0x80;
  }

  /** `n` as the masks find it. */
  method LeadLength(c: Byte) returns (n: nat)
    ensures n == GroupLength(c)
  {
    LeadingBits(c);
    n := if c == 0 then 0
         else if And(c, 0x80) == 0 then 1
         else if And(c, 0xE0) == 0xC0 then 2
         else if And(c, 0xF0) == 0xE0 then 3
         else if And(c, 0xF8) == 0xF0 then 4
         else 0;
  }

  lemma SameGroup(slice: seq<Byte>, behind: seq<Byte>, i: nat, n: nat)
    requires |behind| >= 3 && i < |slice| && 0 < n <= 4
    ensures slice[i..][0] == slice[i]
    ensures (slice[i..] + behind)[1..n] == (slice + behind)[i + 1..i + n]
    ensures i + n < |slice| ==> slice[i..][n..] == slice[i + n..]
  {
    assert slice[i..] + behind == (slice + behind)[i..];
  }

  lemma AcceptedAt(slice: seq<Byte>, behind: seq<Byte>, i: nat, n: nat)
    requires |behind| >= 3 && i < |slice| && n == GroupLength(slice[i])
    ensures n <= 4
    ensures Accepted(slice[i..], behind) <==>
      n > 0 && AllTrailing((slice + behind)[i + 1..i + n]) && (i + n < |slice| ==> Accepted(slice[i + n..], behind))
  {
    hide AllTrailing;
    if n > 0 {
      SameGroup(slice, behind, i, n);
    }
  }

  lemma TrailingEach(bs: seq<Byte>)
    requires |bs| <= 3
    ensures AllTrailing(bs)
      <==> (|bs| >= 1 ==> Trailing(bs[0])) && (|bs| >= 2 ==> Trailing(bs[1])) && (|bs| >= 3 ==> Trailing(bs[2]))
  {
  }

  /** The bytes that the lead asks for are looked at one after the other. */
  method GroupIsValid(memory: seq<Byte>, i: nat, n: nat) returns (valid: bool)
    requires 0 < n <= 4 && i + n <= |memory|
    ensures valid <==> AllTrailing(memory[i + 1..i + n])
  {
    TrailingEach(memory[i + 1..i + n]);
    hide AllTrailing, Trailing;
    valid := true;
    if n >= 2 {
      valid := IsTrailing(memory[i + 1]);
    }
    if valid && n >= 3 {
      valid := IsTrailing(memory[i + 2]);
    }
    if valid && n >= 4 {
      valid := IsTrailing(memory[i + 3]);
    }
  }

  /** `cubs_utf8_is_valid`; `behind` is the memory behind the slice. */
  method IsValid(slice: seq<Byte>, behind: seq<Byte>) returns (valid: bool)
    requires |behind| >= 3
    ensures valid <==> Accepted(slice, behind)
  {
    hide Accepted, GroupLength, AllTrailing;
    NothingAccepted(behind);
    var i := 0;
    assert slice[0..] == slice;
    while i < |slice|
      invariant Accepted(slice, behind) <==> (i < |slice| ==> Accepted(slice[i..], behind))
    {
      var n := LeadLength(slice[i]);
      AcceptedAt(slice, behind, i, n);
      if n == 0 {
        return false;
      }
      var trails := GroupIsValid(slice + behind, i, n);
      if !trails {
        return false;
      }
      i := i + n;
    }
    return true;
  }

  lemma NothingAccepted(behind: seq<Byte>)
    requires |behind| >= 3
    ensures Accepted([], behind)
  {
  }

  // ---- UTF-8 ----

  /** The numbers that are characters; the others are surrogates or too large. */
  predicate Scalar(c: nat) {
    c < 0xD800 || 0xE000 <= c < 0x11_0000
  }

  function Encode(c: nat): (bs: seq<Byte>)
    requires c < 0x20_0000
    ensures |bs| > 0
  {
    if c < 0x80 then [c]
    else if c < 0x800 then [0xC0 + c / 0x40, 0x80 + c % 0x40]
    else if c < 0x1_0000 then [0xE0 + c / 0x1000, 0x80 + c / 0x40 % 0x40, 0x80 + c % 0x40]
    else [0xF0 + c / 0x4_0000, 0x80 + c / 0x1000 % 0x40, 0x80 + c / 0x40 % 0x40, 0x80 + c % 0x40]
  }

  /** Characters of a string: no number is 0. */
  predicate Characters(cs: seq<nat>) {
    forall i :: 0 <= i < |cs| ==> Scalar(cs[i]) && cs[i] != 0
  }

  function EncodeAll(cs: seq<nat>): seq<Byte>
    requires Characters(cs)
  {
    if cs == [] then [] else Encode(cs[0]) + EncodeAll(cs[1..])
  }

  ghost predicate IsUtf8(text: seq<Byte>) {
    exists cs :: Characters(cs) && text == EncodeAll(cs)
  }

  // ---- What the test leaves out ----

  /** The group is not cut, has no shorter form, and is neither a surrogate nor above 0x10FFFF. */
  predicate ProperGroup(text: seq<Byte>, n: nat)
    requires text != []
  {
    && n <= |text|
    && text[0] != 0xC0 && text[0] != 0xC1 && text[0] <= 0xF4
    && (n >= 3 ==>
          && (text[0] == 0xE0 ==> text[1] >= 0xA0)
          && (text[0] == 0xED ==> text[1] < 0xA0)
          && (text[0] == 0xF0 ==> text[1] >= 0x90)
          && (text[0] == 0xF4 ==> text[1] < 0x90))
  }

  predicate Proper(text: seq<Byte>) {
    text == [] ||
    (var n := GroupLength(text[0]);
     n > 0 && ProperGroup(text, n) && (n < |text| ==> Proper(text[n..])))
  }

  /** The bits of a byte below its marker. */
  function Payload(b: Byte, marker: int): (d: int)
    ensures d == b - marker
  {
    b - marker
  }

  function Decode(g: seq<Byte>): int
    requires 1 <= |g| <= 4
  {
    if |g| == 1 then g[0]
    else if |g| == 2 then Join(Payload(g[0], 0xC0), g[1])
    else if |g| == 3 then Join(Join(Payload(g[0], 0xE0), g[1]), g[2])
    else Join(Join(Join(Payload(g[0], 0xF0), g[1]), g[2]), g[3])
  }

  function Join(high: int, b: Byte): int {
    0x40 * high + Payload(b, 0x80)
  }

  lemma Joined(high: nat, b: Byte)
    requires Trailing(b)
    ensures var c := Join(high, b);
      && c >= 0 && c / 0x40 == high && 0x80 + c % 0x40 == b
      && c / 0x1000 == high / 0x40 && c / 0x4_0000 == high / 0x1000
  {
    DivModUnique(Join(high, b), 0x40, high, Payload(b, 0x80));
    Quarter(Join(high, b), 0x40);
    Quarter(Join(high, b), 0x1000);
  }

  lemma Quarter(c: nat, p: nat)
    requires p == 0x40 || p == 0x1000
    ensures c / (0x40 * p) == c / 0x40 / p
  {
  }

  /** A proper group is the encoding of its number. */
  lemma GroupRoundTrip(g: seq<Byte>)
    requires g != [] && |g| == GroupLength(g[0]) && AllTrailing(g[1..]) && ProperGroup(g, |g|)
    ensures 1 <= |g| <= 4 && 0 < Decode(g) && Scalar(Decode(g)) && Encode(Decode(g)) == g
  {
    hide Join;
    forall i | 1 <= i < |g| ensures Trailing(g[i]) {
      assert g[i] == g[1..][i - 1];
    }
    if |g| == 2 {
      Joined(Payload(g[0], 0xC0), g[1]);
    } else if |g| == 3 {
      Joined(Payload(g[0], 0xE0), g[1]);
      Joined(Join(Payload(g[0], 0xE0), g[1]), g[2]);
    } else if |g| == 4 {
      var a := Join(Payload(g[0], 0xF0), g[1]);
      Joined(Payload(g[0], 0xF0), g[1]);
      Joined(a, g[2]);
      Joined(Join(a, g[2]), g[3]);
    }
  }

  /** An encoded character is one proper group. */
  lemma EncodedGroup(c: nat)
    requires Scalar(c) && c != 0
    ensures var g := Encode(c); |g| == GroupLength(g[0]) && AllTrailing(g[1..]) && ProperGroup(g, |g|)
  {
  }

  lemma {:induction false} EncodedAccepted(cs: seq<nat>, behind: seq<Byte>)
    requires Characters(cs) && |behind| >= 3
    ensures Accepted(EncodeAll(cs), behind) && Proper(EncodeAll(cs))
  {
    if cs != [] {
      hide Encode, GroupLength, AllTrailing, ProperGroup, Scalar;
      EncodedAccepted(cs[1..], behind);
      EncodedGroup(cs[0]);
      OneGroup(Encode(cs[0]), EncodeAll(cs[1..]), behind);
    }
  }

  /** A proper group in front of a text. */
  lemma OneGroup(g: seq<Byte>, rest: seq<Byte>, behind: seq<Byte>)
    requires g != [] && |g| == GroupLength(g[0]) && AllTrailing(g[1..]) && ProperGroup(g, |g|)
    requires |behind| >= 3 && Accepted(rest, behind) && Proper(rest)
    ensures Accepted(g + rest, behind) && Proper(g + rest)
  {
    hide AllTrailing, GroupLength;
    assert (g + rest)[0] == g[0] && (g + rest + behind)[1..|g|] == g[1..] && (g + rest)[|g|..] == rest;
  }

  lemma FirstGroup(text: seq<Byte>, behind: seq<Byte>) returns (g: seq<Byte>)
    requires |behind| >= 3 && text != [] && Accepted(text, behind) && Proper(text)
    ensures g != [] && |g| == GroupLength(g[0]) && AllTrailing(g[1..]) && ProperGroup(g, |g|)
    ensures |g| <= |text| && text == g + text[|g|..] && Accepted(text[|g|..], behind) && Proper(text[|g|..])
  {
    hide GroupLength, AllTrailing;
    g := text[..GroupLength(text[0])];
    assert (text + behind)[1..|g|] == g[1..];
  }

  /** The characters of a text that is accepted and proper. */
  lemma {:induction false} DecodeAll(text: seq<Byte>, behind: seq<Byte>) returns (cs: seq<nat>)
    requires |behind| >= 3 && Accepted(text, behind) && Proper(text)
    ensures Characters(cs) && text == EncodeAll(cs)
  {
    hide AllTrailing, Encode, Decode, GroupLength, Scalar, Accepted, Proper, ProperGroup;
    if text == [] {
      cs := [];
    } else {
      var g := FirstGroup(text, behind);
      GroupRoundTrip(g);
      var rest := DecodeAll(text[|g|..], behind);
      cs := [Decode(g)] + rest;
      assert cs[1..] == rest;
    }
  }

  /** Every UTF-8 text without a 0 is accepted. What is accepted is UTF-8 if and only if it is proper: its last
      group is not cut, and the second bytes and the leads are those RFC 3629 allows. */
  lemma {:induction false} AcceptedExactly(text: seq<Byte>, behind: seq<Byte>)
    requires |behind| >= 3
    ensures IsUtf8(text) <==> Accepted(text, behind) && Proper(text)
  {
    if IsUtf8(text) {
      var cs :| Characters(cs) && text == EncodeAll(cs);
      EncodedAccepted(cs, behind);
    }
    if Accepted(text, behind) && Proper(text) {
      var cs := DecodeAll(text, behind);
    }
  }

  predicate Between(b: Byte, low: Byte, high: Byte) {
    low <= b <= high
  }

  /** The octets of one character, in the forms section 4 of RFC 3629 lists. */
  lemma {:induction false} CharacterOctets(g: seq<Byte>)
    ensures (exists c :: Scalar(c) && c != 0 && Encode(c) == g) <==>
      || (|g| == 1 && Between(g[0], 0x01, 0x7F))
      || (|g| == 2 && Between(g[0], 0xC2, 0xDF) && Between(g[1], 0x80, 0xBF))
      || (|g| == 3 && Between(g[2], 0x80, 0xBF)
          && (|| (g[0] == 0xE0 && Between(g[1], 0xA0, 0xBF))
              || (Between(g[0], 0xE1, 0xEC) && Between(g[1], 0x80, 0xBF))
              || (g[0] == 0xED && Between(g[1], 0x80, 0x9F))
              || (Between(g[0], 0xEE, 0xEF) && Between(g[1], 0x80, 0xBF))))
      || (|g| == 4 && Between(g[2], 0x80, 0xBF) && Between(g[3], 0x80, 0xBF)
          && (|| (g[0] == 0xF0 && Between(g[1], 0x90, 0xBF))
              || (Between(g[0], 0xF1, 0xF3) && Between(g[1], 0x80, 0xBF))
              || (g[0] == 0xF4 && Between(g[1], 0x80, 0x8F))))
  {
    CharacterGroup(g);
    hide Scalar, Encode;
    if g != [] && |g| <= 4 {
      TrailingEach(g[1..]);
    }
  }

  lemma {:induction false} CharacterGroup(g: seq<Byte>)
    ensures (exists c :: Scalar(c) && c != 0 && Encode(c) == g) <==>
      g != [] && |g| == GroupLength(g[0]) && AllTrailing(g[1..]) && ProperGroup(g, |g|)
  {
    hide Encode, AllTrailing, ProperGroup, GroupLength, Decode;
    if c :| Scalar(c) && c != 0 && Encode(c) == g {
      EncodedGroup(c);
    }
    if g != [] && |g| == GroupLength(g[0]) && AllTrailing(g[1..]) && ProperGroup(g, |g|) {
      GroupRoundTrip(g);
    }
  }

  predicate Tail(b: Byte) {
    b / 0x40 == 2
  }

  /** The test, one character after the other, by the leading bits: 0, 110, 1110 or 11110 in front of none, one,
      two or three bytes with 10. Of a last character that is cut, the missing bytes are looked for behind it. */
  lemma {:induction false} AcceptedByBits(text: seq<Byte>, behind: seq<Byte>)
    requires |behind| >= 3 && text != []
    ensures var all, n := text + behind, |text|;
      Accepted(text, behind) <==>
        || (text[0] != 0 && text[0] / 0x80 == 0 && Accepted(text[1..], behind))
        || (text[0] / 0x20 == 6 && Tail(all[1]) && (n > 2 ==> Accepted(text[2..], behind)))
        || (text[0] / 0x10 == 14 && Tail(all[1]) && Tail(all[2]) && (n > 3 ==> Accepted(text[3..], behind)))
        || (text[0] / 8 == 30 && Tail(all[1]) && Tail(all[2]) && Tail(all[3])
            && (n > 4 ==> Accepted(text[4..], behind)))
  {
    var all, n := text + behind, GroupLength(text[0]);
    NothingAccepted(behind);
    LeadByBits(text[0]);
    hide GroupLength;
    if n > 0 {
      TrailingEach(all[1..n]);
    }
    hide AllTrailing, Accepted;
    UnfoldAccepted(text, behind);
    assert text[|text|..] == [];
  }

  lemma LeadByBits(b: Byte)
    ensures GroupLength(b) == if b != 0 && b / 0x80 == 0 then 1 else if b / 0x20 == 6 then 2
                              else if b / 0x10 == 14 then 3 else if b / 8 == 30 then 4 else 0
  {
  }

  lemma UnfoldAccepted(text: seq<Byte>, behind: seq<Byte>)
    requires |behind| >= 3 && text != []
    ensures var n := GroupLength(text[0]);
      Accepted(text, behind) <==>
        n > 0 && AllTrailing((text + behind)[1..n]) && (n < |text| ==> Accepted(text[n..], behind))
  {
  }

  /** The first byte alone of a character is accepted where the second lies behind it, and so are a letter in
      two bytes, a surrogate and a number above the last character. None is UTF-8. */
  lemma {:induction false} NotUtf8(behind: seq<Byte>)
    requires |behind| >= 3 && behind[0] == 0xA9
    ensures Accepted([0xC3], behind) && !IsUtf8([0xC3])
    ensures Accepted([0xC1, 0x81], behind) && !IsUtf8([0xC1, 0x81])
    ensures Accepted([0xED, 0xA0, 0x80], behind) && !IsUtf8([0xED, 0xA0, 0x80])
    ensures Accepted([0xF4, 0x90, 0x80, 0x80], behind) && !IsUtf8([0xF4, 0x90, 0x80, 0x80])
  {
    assert ([0xC3] + behind)[1..2] == [0xA9] && ([0xC1, 0x81] + behind)[1..2] == [0x81];
    assert ([0xED, 0xA0, 0x80] + behind)[1..3] == [0xA0, 0x80];
    assert ([0xF4, 0x90, 0x80, 0x80] + behind)[1..4] == [0x90, 0x80, 0x80];
    AcceptedExactly([0xC3], behind);
    AcceptedExactly([0xC1, 0x81], behind);
    AcceptedExactly([0xED, 0xA0, 0x80], behind);
    AcceptedExactly([0xF4, 0x90, 0x80, 0x80], behind);
  }
}
