/** Tokenizing any admissible sequence of tokens, with any blanks between them and none where none are needed,
    gives that sequence. */
module TokenizerRoundTrip {
  import opened IntMath
  import opened Options
  import opened Tokens
  import opened TokenTables
  import opened NumLiteral
  import opened Tokenizer

  /** A character that a name can go on with. */
  predicate GoesOn(c: char) {
    'A' <= c <= 'Z' || 'a' <= c <= 'z' || '0' <= c <= '9' || c == '_'
  }

  predicate NameOver(tail: string) {
    tail == "" || !GoesOn(tail[0])
  }

  predicate KeywordOver(tail: string) {
    tail == "" || tail[0] in BLANKS || tail[0] in ",.;()"
  }

  predicate SymbolOver(tail: string) {
    tail == "" || tail[0] !in "=<>"
  }

  predicate NumberOver(tail: string) {
    tail == "" || tail[0] in BLANKS || tail[0] == ';' || tail[0] == ','
  }

  lemma BlankChars(c: char)
    ensures c in BLANKS ==> !GoesOn(c) && c !in "=<>" && IsSpace(c) && c != '\0'
    ensures c in ",.;()" ==> !GoesOn(c)
    ensures IsSpace(c) <==> c in BLANKS
    ensures EndsKeyword(c) <==> c in BLANKS || c in ",.;()"
    ensures EndsNumber(c) <==> c in BLANKS || c == ';' || c == ',' || c == '\0'
    ensures InIdentifier(c) <==> GoesOn(c)
  {
    BlankOrEnd(c);
    assert ",.;()" == [',', '.', ';', '(', ')'] && "=<>" == ['=', '<', '>'];
  }

  // ---- Keywords and symbols ----

  /** A word is matched by no keyword but itself. */
  lemma {:induction false} OnlyItself(word: string, tail: string, k: nat)
    requires (forall i :: 0 <= i < |word| ==> InIdentifier(word[i])) && NameOver(tail)
    requires k < KEYWORD_COUNT && StartsWithKeyword(word + tail, Spelling(KeywordAt(k)))
    ensures Spelling(KeywordAt(k)) == word
  {
    hide Spelling, KeywordAt;
    KeywordIsWord(k);
    var u, s := Spelling(KeywordAt(k)), word + tail;
    assert forall i :: 0 <= i < |word| ==> s[i] == word[i];
    assert tail != "" ==> s[|word|] == tail[0];
    assert |u| == |word| ==> u == s[..|word|];
  }

  lemma {:induction false} KeywordFound(s: string, k: nat, j: nat)
    requires j <= k < KEYWORD_COUNT && StartsWithKeyword(s, Spelling(KeywordAt(k)))
    requires forall i :: 0 <= i < KEYWORD_COUNT && StartsWithKeyword(s, Spelling(KeywordAt(i)))
                         ==> Spelling(KeywordAt(i)) == Spelling(KeywordAt(k))
    ensures FirstKeyword(s, j) == Some(KeywordAt(k))
    decreases k - j
  {
    hide Spelling, KeywordAt, StartsWithKeyword;
    if StartsWithKeyword(s, Spelling(KeywordAt(j))) {
      KeywordsDiffer(j, k);
    } else {
      KeywordFound(s, k, j + 1);
    }
  }

  lemma {:induction false} NoKeyword(s: string, j: nat)
    requires j <= KEYWORD_COUNT && forall i :: 0 <= i < KEYWORD_COUNT ==> !StartsWithKeyword(s, Spelling(KeywordAt(i)))
    ensures FirstKeyword(s, j) == None
    decreases KEYWORD_COUNT - j
  {
    hide Spelling, KeywordAt, StartsWithKeyword;
    if j < KEYWORD_COUNT {
      NoKeyword(s, j + 1);
    }
  }

  lemma {:induction false} NoKeywordAtOther(s: string)
    requires s == "" || !IsLowerCase(s[0])
    ensures FirstKeyword(s, 0) == None
  {
    hide Spelling, KeywordAt, EndsKeyword;
    forall i | 0 <= i < KEYWORD_COUNT ensures !StartsWithKeyword(s, Spelling(KeywordAt(i))) {
      KeywordIsWord(i);
    }
    NoKeyword(s, 0);
  }

  lemma {:induction false} RecogniseKeyword(k: nat, tail: string, previous: TokenType)
    requires k < KEYWORD_COUNT && KeywordOver(tail)
    ensures Recognise(Spelling(KeywordAt(k)) + tail, previous) == Found(Plain(KeywordAt(k)), |Spelling(KeywordAt(k))|)
  {
    hide Spelling, KeywordAt, FirstKeyword, FirstSymbol, EndsKeyword;
    KeywordIsWord(k);
    var w := Spelling(KeywordAt(k));
    if tail != "" {
      BlankChars(tail[0]);
    }
    forall i | 0 <= i < KEYWORD_COUNT && StartsWithKeyword(w + tail, Spelling(KeywordAt(i)))
      ensures Spelling(KeywordAt(i)) == Spelling(KeywordAt(k))
    {
      OnlyItself(w, tail, i);
    }
    KeywordFound(w + tail, k, 0);
  }

  /** No earlier entry of the table matches the spelling of a later one. */
  lemma {:induction false} EarlierSymbols(k: nat, tail: string, i: nat)
    requires i < k < SYMBOL_COUNT && SymbolOver(tail)
    ensures !(Spelling(SymbolAt(i)) <= Spelling(SymbolAt(k)) + tail)
  {
    hide Spelling, SymbolAt, SymbolLength, SymbolFirst, SymbolSecond;
    SymbolChars(i);
    SymbolChars(k);
    SymbolOrder(i, k);
    var u, w := Spelling(SymbolAt(i)), Spelling(SymbolAt(k));
    var s := w + tail;
    assert tail != "" ==> s[|w|] == tail[0];
    PrefixWithin(u, w, tail);
  }

  lemma PrefixWithin(u: string, w: string, tail: string)
    ensures u <= w + tail && |u| <= |w| ==> u <= w
  {
    assert |u| <= |w| ==> (w + tail)[..|u|] == w[..|u|];
  }

  lemma {:induction false} SymbolFound(k: nat, tail: string, j: nat)
    requires j <= k < SYMBOL_COUNT && SymbolOver(tail)
    ensures FirstSymbol(Spelling(SymbolAt(k)) + tail, j) == Some(SymbolAt(k))
    decreases k - j
  {
    hide Spelling, SymbolAt;
    if j < k {
      EarlierSymbols(k, tail, j);
      SymbolFound(k, tail, j + 1);
    }
  }

  lemma {:induction false} RecogniseSymbol(k: nat, tail: string, previous: TokenType)
    requires k < SYMBOL_COUNT && SymbolOver(tail)
    ensures Recognise(Spelling(SymbolAt(k)) + tail, previous) == Found(Plain(SymbolAt(k)), |Spelling(SymbolAt(k))|)
  {
    hide Spelling, SymbolAt, FirstKeyword, FirstSymbol, SymbolLength, SymbolFirst, SymbolSecond;
    SymbolChars(k);
    NoKeywordAtOther(Spelling(SymbolAt(k)) + tail);
    SymbolFound(k, tail, 0);
  }

  lemma {:induction false} NoSymbol(s: string, j: nat)
    requires j <= SYMBOL_COUNT && forall i :: 0 <= i < SYMBOL_COUNT ==> !(Spelling(SymbolAt(i)) <= s)
    ensures FirstSymbol(s, j) == None
    decreases SYMBOL_COUNT - j
  {
    hide Spelling, SymbolAt;
    if j < SYMBOL_COUNT {
      NoSymbol(s, j + 1);
    }
  }

  /** Only with an equals sign behind them are these the start of a symbol. */
  predicate IsAmbiguous(c: char) {
    c == '&' || c == '*' || c == '-'
  }

  lemma AmbiguousSymbols(k: nat)
    requires k < SYMBOL_COUNT && IsAmbiguous(SymbolFirst(k))
    ensures SymbolLength(k) == 2 && SymbolSecond(k) == '='
  {
  }

  lemma {:induction false} NoSymbolAtOther(s: string)
    requires s == "" || !IsPunctuation(s[0]) || (IsAmbiguous(s[0]) && (|s| > 1 ==> s[1] != '='))
    ensures FirstSymbol(s, 0) == None
  {
    hide Spelling, SymbolAt, SymbolLength, SymbolFirst, SymbolSecond;
    forall i | 0 <= i < SYMBOL_COUNT ensures !(Spelling(SymbolAt(i)) <= s) {
      SymbolChars(i);
      if s != "" && IsAmbiguous(s[0]) && SymbolFirst(i) == s[0] {
        AmbiguousSymbols(i);
      }
    }
    NoSymbol(s, 0);
  }

  /** How one of the ambiguous characters is read. */
  function Reading(c: char, previous: TokenType): TokenType {
    if c == '&' then (if EndsInteger(previous) then BitAndOperator else ReferenceSymbol)
    else if c == '*' then (if EndsNumeric(previous) then MultiplyOperator else PointerSymbol)
    else SubtractOperator
  }

  lemma {:induction false} RecogniseAmbiguous(c: char, tail: string, previous: TokenType)
    requires IsAmbiguous(c) && SymbolOver(tail) && (c == '-' ==> EndsNumeric(previous))
    ensures Recognise([c] + tail, previous) == Found(Plain(Reading(c, previous)), 1)
  {
    hide FirstKeyword, FirstSymbol, Parse;
    var s := [c] + tail;
    NoKeywordAtOther(s);
    NoSymbolAtOther(s);
    assert forall d: char :: [d] <= s <==> d == c;
  }

  // ---- Literals and identifiers ----

  function Digits(n: nat): (s: string)
    ensures s != "" && AllDigits(s) && NumberOf(s) == n
  {
    var last := (n % 10 + '0' as int) as char;
    if n < 10 then
      assert ""[..0] == "" && [last][..0] == "";
      [last]
    else
      var front := Digits(n / 10);
      assert (front + [last])[..|front|] == front;
      front + [last]
  }

  function Decimal(v: Int64): string {
    (if v < 0 then "-" else "") + Digits(Abs(v))
  }

  lemma {:induction false} RecogniseNumber(s: string, previous: TokenType)
    requires s != "" && (IsDigit(s[0]) || (s[0] == '-' && !EndsNumeric(previous) && (|s| > 1 ==> s[1] != '=')))
    ensures Recognise(s, previous) == FromNumber(Parse(s))
  {
    hide FirstKeyword, FirstSymbol, Parse, FromNumber;
    NoKeywordAtOther(s);
    NoSymbolAtOther(s);
    assert s[0] == '-' ==> "-" <= s;
  }

  lemma {:induction false} RecogniseInt(v: Int64, tail: string, previous: TokenType)
    requires NumberOver(tail) && (v < 0 ==> !EndsNumeric(previous))
    ensures Recognise(Decimal(v) + tail, previous) == Found(Token(IntLiteral, IntValue(v)), |Decimal(v)|)
  {
    hide Recognise, Parse, NumberOf, AllDigits, Digits, EndsNumber;
    BlankOrEnd(CharAt(tail, 0));
    var digits := Digits(Abs(v));
    var s := Decimal(v) + tail;
    DigitsStart(Abs(v));
    assert s == (if v < 0 then "-" else "") + digits + tail;
    LiteralValue(s, v < 0, digits, tail);
    RecogniseNumber(s, previous);
  }

  lemma {:induction false} DigitsStart(n: nat)
    ensures IsDigit(Digits(n)[0])
  {
    assert AllDigits(Digits(n));
  }

  predicate ValidName(name: string) {
    && name != "" && IsAlphabeticOrUnderscore(name[0])
    && (forall i :: 0 <= i < |name| ==> InIdentifier(name[i]))
    && (forall k :: 0 <= k < KEYWORD_COUNT ==> Spelling(KeywordAt(k)) != name)
  }

  lemma {:induction false} NameEnds(name: string, tail: string, i: nat)
    requires i <= |name| && (forall k :: 0 <= k < |name| ==> InIdentifier(name[k])) && NameOver(tail)
    ensures IdentifierEnd(name + tail, i) == |name|
    decreases |name| - i
  {
    if i < |name| {
      NameEnds(name, tail, i + 1);
    }
  }

  lemma {:induction false} RecogniseName(name: string, tail: string, previous: TokenType)
    requires ValidName(name) && NameOver(tail)
    ensures Recognise(name + tail, previous) == Found(NameToken(name), |name|)
  {
    hide Spelling, KeywordAt, FirstKeyword, FirstSymbol, IdentifierEnd, StartsWithKeyword;
    var s := name + tail;
    forall k | 0 <= k < KEYWORD_COUNT ensures !StartsWithKeyword(s, Spelling(KeywordAt(k))) {
      if StartsWithKeyword(s, Spelling(KeywordAt(k))) {
        OnlyItself(name, tail, k);
      }
    }
    NoKeyword(s, 0);
    NoSymbolAtOther(s);
    NameEnds(name, tail, 1);
    assert s[..|name|] == name;
  }

  lemma {:induction false} TextEnds(text: string, tail: string, i: nat)
    requires i <= |text| && ClosedText(text[i..])
    ensures StringStop("\"" + text + "\"" + tail, i) == |text|
    decreases |text| - i
  {
    var s := "\"" + text + "\"" + tail;
    if i < |text| {
      assert s[1 + i] == text[i] == text[i..][0];
      if text[i] == '\\' {
        assert text[i..][2..] == text[i + 2..];
        TextEnds(text, tail, i + 2);
      } else {
        assert text[i..][1..] == text[i + 1..];
        TextEnds(text, tail, i + 1);
      }
    }
  }

  lemma {:induction false} RecogniseText(text: string, tail: string, previous: TokenType)
    requires ClosedText(text)
    ensures Recognise("\"" + text + "\"" + tail, previous) == Found(Token(StrLiteral, Text(text)), |text| + 2)
  {
    hide FirstKeyword, FirstSymbol, ClosedText, StringStop;
    var s := "\"" + text + "\"" + tail;
    assert text[0..] == text && s[1..1 + |text|] == text;
    TextEnds(text, tail, 0);
    NoKeywordAtOther(s);
    NoSymbolAtOther(s);
  }

  // ---- Sequences ----

  /** Tokens that can stand behind a token of type `previous`; `&`, `*` and `-` are read by what is before them.
      Float literals are left out, since a number can be written in many ways. */
  predicate Admissible(t: Token, previous: TokenType) {
    match t.tag
    case IntLiteral => t.value.IntValue? && (t.value.int64 < 0 ==> !EndsNumeric(previous))
    case Identifier => t.value.Text? && ValidName(t.value.text)
    case StrLiteral => t.value.Text? && ClosedText(t.value.text) && '\0' !in t.value.text
    case BitAndOperator => t.value.NoValue? && EndsInteger(previous)
    case ReferenceSymbol => t.value.NoValue? && !EndsInteger(previous)
    case MultiplyOperator => t.value.NoValue? && EndsNumeric(previous)
    case PointerSymbol => t.value.NoValue? && !EndsNumeric(previous)
    case SubtractOperator => t.value.NoValue? && EndsNumeric(previous)
    case _ => t.value.NoValue? && (IsKeyword(t.tag) || IsSymbol(t.tag))
  }

  function SpellToken(t: Token): string {
    match t.value
    case IntValue(v) => Decimal(v)
    case Text(s) => if t.tag == StrLiteral then "\"" + s + "\"" else s
    case _ => Spelling(t.tag)
  }

  predicate AllAdmissible(ts: seq<Token>, previous: TokenType)
    decreases ts
  {
    ts == [] || (Admissible(ts[0], previous) && AllAdmissible(ts[1..], ts[0].tag))
  }

  /** What may follow a token right away. */
  predicate Apart(t: Token, tail: string) {
    match t.tag
    case IntLiteral => NumberOver(tail)
    case Identifier => NameOver(tail)
    case StrLiteral => true
    case _ => if IsKeyword(t.tag) then KeywordOver(tail) else SymbolOver(tail)
  }

  predicate AllBlank(gap: string) {
    forall i :: 0 <= i < |gap| ==> gap[i] in BLANKS
  }

  /** The tokens, with a gap before each and one at the end. */
  function Spell(ts: seq<Token>, gaps: seq<string>): string
    requires |gaps| == |ts| + 1
    decreases ts
  {
    if ts == [] then gaps[0] else gaps[0] + (SpellToken(ts[0]) + Spell(ts[1..], gaps[1..]))
  }

  /** The gaps are blank, and empty only where two tokens do not run into each other. */
  predicate LaidOut(ts: seq<Token>, gaps: seq<string>)
    requires |gaps| == |ts| + 1
    decreases ts
  {
    && AllBlank(gaps[0])
    && (ts == [] || (Apart(ts[0], Spell(ts[1..], gaps[1..])) && LaidOut(ts[1..], gaps[1..])))
  }

  lemma {:induction false} FixedSpelling(t: TokenType, tail: string, previous: TokenType)
    requires if IsKeyword(t) then KeywordOver(tail) else IsSymbol(t) && SymbolOver(tail)
    ensures Recognise(Spelling(t) + tail, previous) == Found(Plain(t), |Spelling(t)|)
  {
    hide Spelling, KeywordAt, SymbolAt, Recognise;
    if IsKeyword(t) {
      var k :| 0 <= k < KEYWORD_COUNT && KeywordAt(k) == t;
      RecogniseKeyword(k, tail, previous);
    } else {
      var k :| 0 <= k < SYMBOL_COUNT && SymbolAt(k) == t;
      RecogniseSymbol(k, tail, previous);
    }
  }

  /** The ambiguous tokens are in no table. */
  lemma ReadingNoKeyword(t: TokenType)
    requires IsReading(t)
    ensures !IsKeyword(t)
  {
    hide IsReading;
    if IsKeyword(t) {
      var k :| 0 <= k < KEYWORD_COUNT && KeywordAt(k) == t;
      KeywordReads(k);
    }
  }

  lemma KeywordReads(k: nat)
    requires k < KEYWORD_COUNT
    ensures !IsReading(KeywordAt(k))
  {
  }

  predicate IsReading(t: TokenType) {
    match t
    case BitAndOperator | ReferenceSymbol | MultiplyOperator | PointerSymbol | SubtractOperator => true
    case _ => false
  }

  lemma AmpersandSpelling()
    ensures Spelling(BitAndOperator) == Spelling(ReferenceSymbol) == "&"
  {
  }

  lemma AsteriskSpelling()
    ensures Spelling(MultiplyOperator) == Spelling(PointerSymbol) == "*"
  {
  }

  lemma MinusSpelling()
    ensures Spelling(SubtractOperator) == "-"
  {
  }

  function ReadingChar(t: TokenType): char {
    if t == BitAndOperator || t == ReferenceSymbol then '&' else if t == SubtractOperator then '-' else '*'
  }

  lemma ReadingSpelling(t: TokenType)
    requires IsReading(t)
    ensures Spelling(t) == [ReadingChar(t)]
  {
    hide Spelling;
    AmpersandSpelling();
    AsteriskSpelling();
    MinusSpelling();
  }

  lemma ReadingPlain(t: Token, previous: TokenType)
    requires Admissible(t, previous) && IsReading(t.tag)
    ensures t == Plain(t.tag) && SpellToken(t) == Spelling(t.tag)
      && (t.tag == SubtractOperator ==> EndsNumeric(previous))
  {
    hide Spelling, ValidName, ClosedText, IsKeyword, IsSymbol, EndsInteger, EndsNumeric;
  }

  /** In an admissible place an ambiguous character is read as the token. */
  lemma ReadingAdmissible(t: Token, previous: TokenType)
    requires Admissible(t, previous) && IsReading(t.tag)
    ensures Reading(ReadingChar(t.tag), previous) == t.tag
  {
    hide Spelling, ValidName, ClosedText, IsKeyword, IsSymbol, EndsInteger, EndsNumeric;
  }

  lemma {:induction false} RecogniseReading(t: Token, tail: string, previous: TokenType)
    requires Admissible(t, previous) && SymbolOver(tail) && IsReading(t.tag)
    ensures Recognise(SpellToken(t) + tail, previous) == Found(t, |SpellToken(t)|)
  {
    hide Spelling, Recognise, Admissible, SpellToken, Reading, EndsNumeric;
    ReadingPlain(t, previous);
    ReadingAdmissible(t, previous);
    ReadingSpelling(t.tag);
    RecogniseAmbiguous(ReadingChar(t.tag), tail, previous);
  }

  /** Every admissible token is recognised from its spelling. */
  lemma {:induction false} RecogniseToken(t: Token, tail: string, previous: TokenType)
    requires Admissible(t, previous) && Apart(t, tail)
    ensures Recognise(SpellToken(t) + tail, previous) == Found(t, |SpellToken(t)|)
  {
    hide Spelling, KeywordAt, SymbolAt, Recognise, Decimal, ValidName, ClosedText, IsKeyword, IsSymbol, NameOver,
      KeywordOver, SymbolOver, NumberOver, EndsInteger, EndsNumeric;
    if IsReading(t.tag) {
      ReadingNoKeyword(t.tag);
    }
    match t.tag {
      case IntLiteral => RecogniseInt(t.value.int64, tail, previous);
      case Identifier => RecogniseName(t.value.text, tail, previous);
      case StrLiteral => RecogniseText(t.value.text, tail, previous);
      case BitAndOperator | ReferenceSymbol | MultiplyOperator | PointerSymbol | SubtractOperator =>
        RecogniseReading(t, tail, previous);
      case _ => FixedSpelling(t.tag, tail, previous);
    }
  }

  /** There is something, it does not start with a blank, and there is no NUL in it. */
  predicate Solid(s: string) {
    s != "" && !IsSpace(s[0]) && '\0' !in s
  }

  lemma {:induction false} FixedSolid(t: TokenType)
    requires IsKeyword(t) || IsSymbol(t)
    ensures Solid(Spelling(t))
  {
    hide Spelling, KeywordAt, SymbolAt, Solid;
    if IsKeyword(t) {
      var k :| 0 <= k < KEYWORD_COUNT && KeywordAt(k) == t;
      WordSolid(k);
    } else {
      var k :| 0 <= k < SYMBOL_COUNT && SymbolAt(k) == t;
      SymbolSolid(k);
    }
  }

  lemma WordSolid(k: nat)
    requires k < KEYWORD_COUNT
    ensures Solid(Spelling(KeywordAt(k)))
  {
    hide Spelling, KeywordAt;
    KeywordIsWord(k);
  }

  lemma SymbolSolid(k: nat)
    requires k < SYMBOL_COUNT
    ensures Solid(Spelling(SymbolAt(k)))
  {
    hide Spelling, SymbolAt, SymbolLength, SymbolFirst, SymbolSecond;
    SymbolChars(k);
  }

  lemma {:induction false} NumberSolid(v: Int64)
    ensures Solid(Decimal(v))
  {
    hide Digits, NumberOf;
    DigitsStart(Abs(v));
    assert AllDigits(Digits(Abs(v)));
  }

  lemma NameSolid(name: string)
    requires ValidName(name)
    ensures Solid(name)
  {
    hide Spelling;
  }

  lemma TextSolid(text: string)
    requires '\0' !in text
    ensures Solid("\"" + text + "\"")
  {
  }

  lemma ReadingSolid(t: TokenType)
    requires IsReading(t)
    ensures Solid(Spelling(t))
  {
    hide Spelling;
    ReadingSpelling(t);
  }

  lemma {:induction false} TokenSolid(t: Token, previous: TokenType)
    requires Admissible(t, previous)
    ensures Solid(SpellToken(t))
  {
    hide Spelling, Decimal, ValidName, ClosedText, IsKeyword, IsSymbol, Solid;
    match t.tag {
      case IntLiteral => NumberSolid(t.value.int64);
      case Identifier => NameSolid(t.value.text);
      case StrLiteral => TextSolid(t.value.text);
      case BitAndOperator | ReferenceSymbol | MultiplyOperator | PointerSymbol | SubtractOperator =>
        ReadingSolid(t.tag);
      case _ => FixedSolid(t.tag);
    }
  }

  lemma {:induction false} SkipGap(source: string, i: nat, gap: string, rest: string)
    requires i <= |source| && source[i..] == gap + rest && AllBlank(gap)
    requires rest == "" || !IsSpace(rest[0])
    ensures i + |gap| <= |source| && SkipSpaces(source, i) == i + |gap| && source[i + |gap|..] == rest
    decreases |gap|
  {
    assert source[i + |gap|..] == source[i..][|gap|..] == rest;
    if gap == "" {
      assert rest != "" ==> source[i] == source[i..][0];
    } else {
      BlankChars(gap[0]);
      assert source[i] == source[i..][0] && source[i + 1..] == source[i..][1..] == gap[1..] + rest;
      SkipGap(source, i + 1, gap[1..], rest);
    }
  }

  lemma {:induction false} NothingLeft(source: string, i: nat, gap: string, previous: TokenType)
    requires i <= |source| && source[i..] == gap && AllBlank(gap)
    ensures Tokenize(source, i, previous) == Some([])
  {
    hide FirstKeyword, FirstSymbol, IsSpace;
    assert gap + "" == gap;
    SkipGap(source, i, gap, "");
    NoKeywordAtOther("");
    NoSymbolAtOther("");
  }

  /** One token taken off the source. */
  lemma {:induction false} TokenizeOne(source: string, i: nat, gap: string, t: Token, tail: string, previous: TokenType)
    requires Admissible(t, previous) && Apart(t, tail) && AllBlank(gap)
    requires i <= |source| && source[i..] == gap + (SpellToken(t) + tail)
    ensures var end := i + |gap| + |SpellToken(t)|;
      && end <= |source| && source[end..] == tail
      && Tokenize(source, i, previous) == Following([t], Tokenize(source, end, t.tag))
  {
    hide Recognise, SpellToken, Admissible, Apart, IsSpace, SkipSpaces, AllBlank;
    TokenSolid(t, previous);
    SkipGap(source, i, gap, SpellToken(t) + tail);
    RecogniseToken(t, tail, previous);
    var at := i + |gap|;
    assert source[at + |SpellToken(t)|..] == source[at..][|SpellToken(t)|..];
  }

  /** From the end of one token on, the rest of the spelling gives the rest of the tokens. */
  lemma {:induction false} TokenizeRest(source: string, i: nat, ts: seq<Token>, gaps: seq<string>, previous: TokenType)
    requires |gaps| == |ts| + 1 && LaidOut(ts, gaps) && AllAdmissible(ts, previous)
    requires i <= |source| && source[i..] == Spell(ts, gaps)
    ensures Tokenize(source, i, previous) == Some(ts)
    decreases ts
  {
    hide Tokenize, SpellToken, Admissible, Apart, AllBlank;
    if ts == [] {
      NothingLeft(source, i, gaps[0], previous);
    } else {
      TokenizeOne(source, i, gaps[0], ts[0], Spell(ts[1..], gaps[1..]), previous);
      TokenizeRest(source, i + |gaps[0]| + |SpellToken(ts[0])|, ts[1..], gaps[1..], ts[0].tag);
      assert [ts[0]] + ts[1..] == ts;
    }
  }

  /** The round trip: any keywords, operators, symbols, names, string texts and 64-bit literals, each in a
      place where its spelling is read as that token, come back from their spelling, with any blanks between
      them and none where they do not run into each other. */
  lemma {:induction false} TokenizeSpelling(ts: seq<Token>, gaps: seq<string>)
    requires |gaps| == |ts| + 1 && LaidOut(ts, gaps) && AllAdmissible(ts, TokenNone)
    ensures Tokenize(Spell(ts, gaps), 0, TokenNone) == Some(ts)
  {
    hide Spell, Tokenize, AllAdmissible, LaidOut;
    assert Spell(ts, gaps)[0..] == Spell(ts, gaps);
    TokenizeRest(Spell(ts, gaps), 0, ts, gaps, TokenNone);
  }

  // ---- Layouts ----

  /** Blanks between all tokens, except that they may be missing before a semicolon and a comma. */
  predicate Divided(ts: seq<Token>, gaps: seq<string>)
    requires |gaps| == |ts| + 1
  {
    && (forall i :: 0 <= i < |gaps| ==> AllBlank(gaps[i]))
    && forall i :: 0 < i < |ts| ==> gaps[i] != "" || ts[i] == Plain(SemicolonSymbol) || ts[i] == Plain(CommaSymbol)
  }

  lemma DividerApart(t: Token, tail: string)
    requires tail == "" || tail[0] in BLANKS || tail[0] == ';' || tail[0] == ','
    ensures Apart(t, tail)
  {
    hide IsKeyword;
    if tail != "" {
      BlankChars(tail[0]);
    }
  }

  lemma {:induction false} DividedStart(ts: seq<Token>, gaps: seq<string>)
    requires |gaps| == |ts| + 1 && AllBlank(gaps[0])
    requires ts != [] ==> gaps[0] != "" || ts[0] == Plain(SemicolonSymbol) || ts[0] == Plain(CommaSymbol)
    ensures var tail := Spell(ts, gaps); tail == "" || tail[0] in BLANKS || tail[0] == ';' || tail[0] == ','
  {
    hide Spelling;
    DividerSpelling();
  }

  lemma DividerSpelling()
    ensures Spelling(SemicolonSymbol) == ";" && Spelling(CommaSymbol) == ","
  {
  }

  lemma {:induction false} DividedIsLaidOut(ts: seq<Token>, gaps: seq<string>)
    requires |gaps| == |ts| + 1 && Divided(ts, gaps)
    ensures LaidOut(ts, gaps)
    decreases ts
  {
    hide Apart, AllBlank, Spell;
    if ts != [] {
      DividedIsLaidOut(ts[1..], gaps[1..]);
      assert gaps[1..][0] == gaps[1] && (|ts| > 1 ==> ts[1..][0] == ts[1]);
      DividedStart(ts[1..], gaps[1..]);
      DividerApart(ts[0], Spell(ts[1..], gaps[1..]));
    }
  }

  // ---- No NUL in a spelling ----

  lemma {:induction false} SpellHasNoNul(ts: seq<Token>, gaps: seq<string>, previous: TokenType)
    requires |gaps| == |ts| + 1 && LaidOut(ts, gaps) && AllAdmissible(ts, previous)
    ensures '\0' !in Spell(ts, gaps)
    decreases ts
  {
    hide SpellToken, Admissible, Apart;
    forall i | 0 <= i < |gaps[0]| ensures gaps[0][i] != '\0' {
      BlankChars(gaps[0][i]);
    }
    if ts != [] {
      TokenSolid(ts[0], previous);
      SpellHasNoNul(ts[1..], gaps[1..], ts[0].tag);
    }
  }
}
