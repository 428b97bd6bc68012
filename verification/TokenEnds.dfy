/** Where each kind of token ends and how it is read, character by character: what the tables and the character
    tests of the tokenizer (src/compiler/tokenizer.c:10-28, 55-78, 310-440, 452-736) come to for a source. */
module TokenEnds {
  import opened Options
  import opened Tokens
  import opened TokenTables
  import opened NumLiteral
  import opened Tokenizer
  import opened TokenizerRoundTrip

  // ---- Words and symbols ----

  function KeywordTable(): (ws: seq<(string, TokenType)>)
    ensures |ws| == 31
  {
    [("const", ConstKeyword), ("mut", MutKeyword), ("return", ReturnKeyword), ("fn", FnKeyword), ("pub", PubKeyword),
     ("if", IfKeyword), ("else", ElseKeyword), ("switch", SwitchKeyword), ("while", WhileKeyword), ("for", ForKeyword),
     ("break", BreakKeyword), ("continue", ContinueKeyword), ("struct", StructKeyword),
     ("interface", InterfaceKeyword), ("enum", EnumKeyword), ("union", UnionKeyword), ("sync", SyncKeyword),
     ("unsafe", UnsafeKeyword), ("true", TrueKeyword), ("false", FalseKeyword), ("bool", BoolKeyword),
     ("int", IntKeyword), ("float", FloatKeyword), ("str", StrKeyword), ("char", CharKeyword),
     ("import", ImportKeyword), ("mod", ModKeyword), ("extern", ExternKeyword), ("and", AndKeyword),
     ("or", OrKeyword), ("null", NullKeyword)]
  }

  function SymbolTable(): (ss: seq<(string, TokenType)>)
    ensures |ss| == 34
  {
    [("<<=", BitshiftLeftAssignOperator), ("<<", BitshiftLeftOperator), (">>=", BitshiftRightAssignOperator),
     (">>", BitshiftRightOperator), ("==", EqualOperator), ("=", AssignOperator), ("!=", NotEqualOperator),
     ("!", NotOperator), ("<=", LessEqualOperator), ("<", LessOperator), (">=", GreaterEqualOperator),
     (">", GreaterOperator), ("+=", AddAssignOperator), ("+", AddOperator), ("-=", SubtractAssignOperator),
     ("*=", MultiplyAssignOperator), ("/=", DivideAssignOperator), ("/", DivideOperator), ("~", BitComplementOperator),
     ("|=", BitOrAssignOperator), ("|", BitOrOperator), ("&=", BitAndAssignOperator), ("^=", BitXorAssignOperator),
     ("^", BitXorOperator), ("(", LeftParenthesesSymbol), (")", RightParenthesesSymbol), ("[", LeftBracketSymbol),
     ("]", RightBracketSymbol), ("{", LeftBraceSymbol), ("}", RightBraceSymbol), (":", ColonSymbol),
     (";", SemicolonSymbol), (".", PeriodSymbol), (",", CommaSymbol)]
  }

  lemma WordAt(k: nat)
    requires k < 31
    ensures KeywordTable()[k] == (Spelling(KeywordAt(k)), KeywordAt(k))
  {
    hide KeywordTable, Spelling, KeywordAt;
    if k < 8 {
      FirstWords(k);
    } else if k < 16 {
      SecondWords(k);
    } else if k < 24 {
      ThirdWords(k);
    } else {
      LastWords(k);
    }
  }

  lemma FirstWords(k: nat)
    requires k < 8
    ensures KeywordTable()[k] == (Spelling(KeywordAt(k)), KeywordAt(k))
  {
  }

  lemma SecondWords(k: nat)
    requires 8 <= k < 16
    ensures KeywordTable()[k] == (Spelling(KeywordAt(k)), KeywordAt(k))
  {
  }

  lemma ThirdWords(k: nat)
    requires 16 <= k < 24
    ensures KeywordTable()[k] == (Spelling(KeywordAt(k)), KeywordAt(k))
  {
  }

  lemma LastWords(k: nat)
    requires 24 <= k < 31
    ensures KeywordTable()[k] == (Spelling(KeywordAt(k)), KeywordAt(k))
  {
  }

  lemma SymbolIs(k: nat)
    requires k < 34
    ensures SymbolTable()[k] == (Spelling(SymbolAt(k)), SymbolAt(k))
  {
    hide SymbolTable, Spelling, SymbolAt;
    if k < 9 {
      FirstSymbols(k);
    } else if k < 18 {
      SecondSymbols(k);
    } else if k < 26 {
      ThirdSymbols(k);
    } else {
      LastSymbols(k);
    }
  }

  lemma FirstSymbols(k: nat)
    requires k < 9
    ensures SymbolTable()[k] == (Spelling(SymbolAt(k)), SymbolAt(k))
  {
  }

  lemma SecondSymbols(k: nat)
    requires 9 <= k < 18
    ensures SymbolTable()[k] == (Spelling(SymbolAt(k)), SymbolAt(k))
  {
  }

  lemma ThirdSymbols(k: nat)
    requires 18 <= k < 26
    ensures SymbolTable()[k] == (Spelling(SymbolAt(k)), SymbolAt(k))
  {
  }

  lemma LastSymbols(k: nat)
    requires 26 <= k < 34
    ensures SymbolTable()[k] == (Spelling(SymbolAt(k)), SymbolAt(k))
  {
  }

  /** A keyword is read where its word stands in front of a blank, a comma, a point, a semicolon, a parenthesis or
      the end, and nowhere else. */
  lemma {:induction false} WordEndsExactly(k: nat, tail: string, previous: TokenType)
    requires k < 31
    ensures var (word, tag) := KeywordTable()[k];
      Recognise(word + tail, previous) == Found(Plain(tag), |word|)
      <==> tail == "" || tail[0] in " \t\n\U{0B}\U{0C}\r" || tail[0] in ",.;()"
  {
    hide KeywordTable, Spelling, KeywordAt, FirstKeyword, FirstSymbol, Recognise, StartsWithKeyword;
    WordAt(k);
    var word := Spelling(KeywordAt(k));
    if KeywordOver(tail) {
      RecogniseKeyword(k, tail, previous);
    } else {
      WordGoesOn(word, tail);
      NotRecognised(word + tail, k, previous);
    }
  }

  lemma WordGoesOn(word: string, tail: string)
    requires !KeywordOver(tail)
    ensures !StartsWithKeyword(word + tail, word)
  {
    BlankChars(tail[0]);
    assert (word + tail)[|word|] == tail[0];
  }

  lemma {:induction false} MatchesFound(s: string, j: nat)
    requires j <= KEYWORD_COUNT
    ensures FirstKeyword(s, j).Some? ==> StartsWithKeyword(s, Spelling(FirstKeyword(s, j).value))
    decreases KEYWORD_COUNT - j
  {
    hide StartsWithKeyword, Spelling, KeywordAt;
    if j < KEYWORD_COUNT {
      MatchesFound(s, j + 1);
    }
  }

  lemma {:induction false} SymbolInTable(s: string, j: nat)
    requires j <= SYMBOL_COUNT
    ensures FirstSymbol(s, j).Some? ==> IsSymbol(FirstSymbol(s, j).value)
    decreases SYMBOL_COUNT - j
  {
    hide Spelling, SymbolAt;
    if j < SYMBOL_COUNT {
      SymbolInTable(s, j + 1);
    }
  }

  lemma KeywordNoSymbol(k: nat, l: nat)
    requires k < KEYWORD_COUNT && l < SYMBOL_COUNT
    ensures KeywordAt(k) != SymbolAt(l)
  {
    hide Spelling, KeywordAt, SymbolAt, SymbolLength, SymbolFirst, SymbolSecond;
    KeywordIsWord(k);
    SymbolChars(l);
  }

  lemma KeywordNoLiteral(k: nat)
    requires k < KEYWORD_COUNT
    ensures KeywordAt(k) !in {IntLiteral, FloatLiteral, StrLiteral, Identifier}
  {
  }

  /** What is neither a keyword nor in the table of symbols. */
  lemma {:induction false} OtherwiseFound(s: string, previous: TokenType)
    requires FirstKeyword(s, 0) == FirstSymbol(s, 0) == None
    ensures var r := Recognise(s, previous);
      r.Found? ==> IsReading(r.token.tag) || r.token.tag in {IntLiteral, FloatLiteral, StrLiteral, Identifier}
  {
    hide Spelling, KeywordAt, SymbolAt, StartsWithKeyword, FirstKeyword, FirstSymbol, Parse, IdentifierEnd, StringStop;
  }

  /** A keyword that the source does not start with is not what is found. */
  lemma {:induction false} NotRecognised(s: string, k: nat, previous: TokenType)
    requires k < KEYWORD_COUNT && !StartsWithKeyword(s, Spelling(KeywordAt(k)))
    ensures var r := Recognise(s, previous); r.Found? ==> r.token != Plain(KeywordAt(k))
  {
    hide Spelling, KeywordAt, SymbolAt, StartsWithKeyword, FirstKeyword, FirstSymbol, Ambiguous, LiteralOrIdentifier,
      IsReading;
    if FirstKeyword(s, 0).Some? {
      MatchesFound(s, 0);
    } else if FirstSymbol(s, 0).Some? {
      SymbolInTable(s, 0);
      var l :| 0 <= l < SYMBOL_COUNT && SymbolAt(l) == FirstSymbol(s, 0).value;
      KeywordNoSymbol(k, l);
    } else {
      OtherwiseFound(s, previous);
      KeywordReads(k);
      KeywordNoLiteral(k);
    }
  }

  /** Each operator and symbol is read where it does not run into `=`, `<` or `>`. */
  lemma {:induction false} SymbolReads(k: nat, tail: string, previous: TokenType)
    requires k < 34 && (tail == "" || tail[0] !in "=<>")
    ensures var (text, tag) := SymbolTable()[k]; Recognise(text + tail, previous) == Found(Plain(tag), |text|)
  {
    hide SymbolTable, Spelling, SymbolAt, Recognise;
    SymbolIs(k);
    RecogniseSymbol(k, tail, previous);
  }

  /** Three signs are operators behind a number or a name, where a string is none; elsewhere `&` and `*` are
      something else, and `-` begins a number. */
  lemma {:induction false} SignsReadExactly(previous: TokenType, tail: string)
    requires tail == "" || tail[0] !in "=<>"
    ensures Recognise("&" + tail, previous)
         == Found(Plain(if previous in {IntLiteral, Identifier} then BitAndOperator else ReferenceSymbol), 1)
    ensures var number := previous in {IntLiteral, FloatLiteral, Identifier};
      Recognise("*" + tail, previous) == Found(Plain(if number then MultiplyOperator else PointerSymbol), 1)
    ensures Recognise("-" + tail, previous)
         == if previous in {IntLiteral, FloatLiteral, Identifier} then Found(Plain(SubtractOperator), 1)
            else FromNumber(Parse("-" + tail))
  {
    hide Recognise, FromNumber, Parse;
    RecogniseAmbiguous('&', tail, previous);
    RecogniseAmbiguous('*', tail, previous);
    if EndsNumeric(previous) {
      RecogniseAmbiguous('-', tail, previous);
    } else {
      RecogniseNumber("-" + tail, previous);
    }
  }

  /** A name ends where no letter, digit or underscore follows, and nowhere else. */
  lemma {:induction false} NameEndsExactly(name: string, tail: string, previous: TokenType)
    requires ValidName(name)
    ensures Recognise(name + tail, previous) == Found(NameToken(name), |name|) <==>
      tail == "" || !('A' <= tail[0] <= 'Z' || 'a' <= tail[0] <= 'z' || '0' <= tail[0] <= '9' || tail[0] == '_')
  {
    hide Recognise, FirstKeyword, FirstSymbol, Spelling, KeywordAt, Parse, StringStop;
    if NameOver(tail) {
      RecogniseName(name, tail, previous);
    } else {
      NameGoesOn(name, tail, previous);
    }
  }

  lemma {:induction false} NameGoesOn(name: string, tail: string, previous: TokenType)
    requires ValidName(name) && !NameOver(tail)
    ensures Recognise(name + tail, previous) != Found(NameToken(name), |name|)
  {
    hide FirstKeyword, FirstSymbol, Spelling, KeywordAt, Parse, StringStop;
    LongerEnd(name, tail, 1);
  }

  lemma {:induction false} LongerEnd(name: string, tail: string, i: nat)
    requires i <= |name| && (forall k :: 0 <= k < |name| ==> InIdentifier(name[k])) && !NameOver(tail)
    ensures IdentifierEnd(name + tail, i) > |name|
    decreases |name| - i
  {
    BlankChars(tail[0]);
    if i < |name| {
      LongerEnd(name, tail, i + 1);
    }
  }

  /** The names a program can have: letters, digits and underscores, not a digit first, and none of the words. */
  lemma {:induction false} NamesExactly(name: string)
    ensures ValidName(name) <==>
      && name != "" && !('0' <= name[0] <= '9')
      && (forall i :: 0 <= i < |name| ==>
            'A' <= name[i] <= 'Z' || 'a' <= name[i] <= 'z' || '0' <= name[i] <= '9' || name[i] == '_')
      && forall k :: 0 <= k < 31 ==> KeywordTable()[k].0 != name
  {
    hide KeywordTable, Spelling, KeywordAt;
    forall k | 0 <= k < 31 ensures KeywordTable()[k].0 == Spelling(KeywordAt(k)) {
      WordAt(k);
    }
  }

  // ---- Texts ----

  /** Any characters but a quote or a backslash. */
  predicate Unquoted(text: string) {
    forall i :: 0 <= i < |text| ==> text[i] != '"' && text[i] != '\\'
  }

  lemma {:induction false} UnquotedClosed(text: string, more: string)
    requires Unquoted(text) && ClosedText(more)
    ensures ClosedText(text + more)
  {
    if text == "" {
      assert text + more == more;
    } else {
      UnquotedClosed(text[1..], more);
      assert (text + more)[1..] == text[1..] + more;
    }
  }

  /** A text goes up to the next quote that no backslash stands before; the backslash and what is behind it are
      kept as they are. */
  lemma {:induction false} TextReads(text: string, c: char, more: string, tail: string, previous: TokenType)
    requires Unquoted(text) && Unquoted(more)
    ensures Recognise("\"" + text + "\"" + tail, previous) == Found(Token(StrLiteral, Text(text)), |text| + 2)
    ensures var escaped := text + ("\\" + [c] + more);
      Recognise("\"" + escaped + "\"" + tail, previous) == Found(Token(StrLiteral, Text(escaped)), |escaped| + 2)
  {
    hide Recognise;
    UnquotedClosed(text, "");
    assert text + "" == text;
    UnquotedClosed(more, "");
    assert more + "" == more && ("\\" + [c] + more)[2..] == more;
    UnquotedClosed(text, "\\" + [c] + more);
    RecogniseText(text, tail, previous);
    RecogniseText(text + ("\\" + [c] + more), tail, previous);
  }

  lemma {:induction false} RunsToEnd(text: string, i: nat)
    requires Unquoted(text) && i <= |text|
    ensures StringStop("\"" + text, i) == |text|
    decreases |text| - i
  {
    if i < |text| {
      assert ("\"" + text)[1 + i] == text[i];
      RunsToEnd(text, i + 1);
    }
  }

  /** A text without its closing quote is reported at its last character. */
  lemma {:induction false} TextNeverEnds(text: string, previous: TokenType)
    requires Unquoted(text)
    ensures Recognise("\"" + text, previous) == Nothing(Some(Report(TerminatedStringLiteral, |text|)))
  {
    hide FirstKeyword, FirstSymbol, Spelling, StringStop;
    var s := "\"" + text;
    NoKeywordAtOther(s);
    NoSymbolAtOther(s);
    RunsToEnd(text, 0);
  }

  // ---- Other characters ----

  lemma SymbolStart(k: nat)
    requires k < 34
    ensures SymbolTable()[k].0 != "" && SymbolTable()[k].0[0] in "=!<>+-*/~|&^()[]{}:;.,"
  {
  }

  /** No token begins with any other character, and no error is reported there. */
  lemma {:induction false} NothingReads(s: string, previous: TokenType)
    requires s == "" || (s[0] !in "=!<>+-*/~|&^()[]{}:;.," && s[0] != '"' && s[0] != '\'')
    requires s == "" || !('A' <= s[0] <= 'Z' || 'a' <= s[0] <= 'z' || '0' <= s[0] <= '9' || s[0] == '_')
    ensures Recognise(s, previous) == Nothing(None)
  {
    hide FirstKeyword, FirstSymbol, Spelling, SymbolAt, KeywordAt, SymbolTable, Parse, StringStop, IdentifierEnd;
    NoKeywordAtOther(s);
    forall k | 0 <= k < SYMBOL_COUNT ensures !(Spelling(SymbolAt(k)) <= s) {
      SymbolIs(k);
      SymbolStart(k);
    }
    NoSymbol(s, 0);
  }

  /** Exactly the six blanks are skipped. */
  lemma {:induction false} BlanksSkipped(source: string, i: nat)
    requires i < |source|
    ensures SkipSpaces(source, i) > i <==> source[i] in " \t\n\U{0B}\U{0C}\r"
  {
    BlankChars(source[i]);
  }

  // ---- Reported positions ----

  function Newlines(s: string): nat {
    if s == "" then 0 else Newlines(s[..|s| - 1]) + (if s[|s| - 1] == '\n' then 1 else 0)
  }

  /** The width of what follows the last newline: 4 for a tab, 1 for any other character. */
  function LastWidth(s: string): nat {
    if s == "" || s[|s| - 1] == '\n' then 0
    else LastWidth(s[..|s| - 1]) + (if s[|s| - 1] == '\t' then 4 else 1)
  }

  /** A position moved on over some characters: as many lines on as there are newlines, and in the column behind
      the last of them. */
  lemma {:induction false} PositionMoved(p: Position, s: string, end: nat)
    requires end < |s|
    ensures var q := Updated(p, s, end); var passed := s[..end + 1];
      && q.index == p.index + end && q.line == p.line + Newlines(passed)
      && q.column == (if Newlines(passed) == 0 then p.column else 1) + LastWidth(passed)
    decreases end
  {
    var passed := s[..end + 1];
    assert passed[..end] == s[..end] && passed[end] == s[end];
    if end == 0 {
      assert s[..0] == "";
    } else {
      PositionMoved(p, s, end - 1);
    }
  }

  /** An error is reported at the index of its character; on the way there the first character of the token is
      counted twice. */
  lemma {:induction false} ErrorReported(p: Position, source: string, r: Report)
    requires p.index <= |source| && SkipSpaces(source, p.index) + r.at < |source|
    ensures var start := SkipSpaces(source, p.index);
      var q, before, behind := ReportedAt(p, source, r), source[p.index..start + 1], source[start..start + r.at + 1];
      && q.index == start + r.at && q.line == p.line + Newlines(before) + Newlines(behind)
      && q.column == (if Newlines(behind) > 0 then 1
                      else (if Newlines(before) > 0 then 1 else p.column) + LastWidth(before)) + LastWidth(behind)
  {
    hide Updated, Newlines, LastWidth, SkipSpaces;
    var start := SkipSpaces(source, p.index);
    PositionMoved(p, source[p.index..], start - p.index);
    assert source[p.index..][..start - p.index + 1] == source[p.index..start + 1];
    PositionMoved(Updated(p, source[p.index..], start - p.index), source[start..], r.at);
    assert source[start..][..r.at + 1] == source[start..start + r.at + 1];
  }
}
