/** The tokenizer (src/compiler/tokenizer.c): blanks are skipped, then keywords, operators and symbols are
    tried in order, then literals and identifiers. The if-chains of the code are tables here, in its order. */
module Tokenizer {
  import opened Options
  import opened Tokens
  import opened TokenTables
  import opened NumLiteral

  predicate IsAlphabeticOrUnderscore(c: char) {
    'A' <= c <= 'Z' || 'a' <= c <= 'z' || c == '_'
  }

  predicate InIdentifier(c: char) {
    IsAlphabeticOrUnderscore(c) || IsDigit(c)
  }

  /** What may follow a keyword, beside the end of the source. */
  predicate EndsKeyword(c: char) {
    IsSpace(c) || c == ',' || c == '.' || c == ';' || c == '(' || c == ')'
  }

  predicate StartsWithKeyword(s: string, word: string) {
    word <= s && (|s| == |word| || EndsKeyword(s[|word|]))
  }

  /** A call of the error callback: for the character at index `at` from the start of the token. */
  datatype Report = Report(error: ErrorKind, at: nat)

  /** A token and its length, nothing, after at most one report, or `Failed` where an assertion of the code
      fails: at a character literal, and at a text whose last character is a backslash that escapes nothing. */
  datatype Found = Nothing(report: Option<Report>) | Found(token: Token, length: nat) | Failed

  function FirstKeyword(s: string, k: nat): Option<TokenType>
    requires k <= KEYWORD_COUNT
    decreases KEYWORD_COUNT - k
  {
    if k == KEYWORD_COUNT then None
    else if StartsWithKeyword(s, Spelling(KeywordAt(k))) then Some(KeywordAt(k))
    else FirstKeyword(s, k + 1)
  }

  function FirstSymbol(s: string, k: nat): Option<TokenType>
    requires k <= SYMBOL_COUNT
    decreases SYMBOL_COUNT - k
  {
    if k == SYMBOL_COUNT then None
    else if Spelling(SymbolAt(k)) <= s then Some(SymbolAt(k))
    else FirstSymbol(s, k + 1)
  }

  function IdentifierEnd(s: string, i: nat): (r: nat)
    requires i <= |s|
    ensures i <= r <= |s|
    decreases |s| - i
  {
    if InIdentifier(CharAt(s, i)) && i < |s| then IdentifierEnd(s, i + 1) else i
  }

  /** Where the scan of a text stops: at the closing quote, at the end of the source, or behind the end when a
      backslash there takes with it a character that is not there. */
  function StringStop(s: string, i: nat): (r: nat)
    requires i <= |s| && s != ""
    ensures i <= r <= |s|
    decreases |s| - i
  {
    if i >= |s| - 1 then i
    else if s[1 + i] == '\\' then StringStop(s, i + 2)
    else if s[1 + i] == '"' then i
    else StringStop(s, i + 1)
  }

  /** No quote and no end inside, other than behind a backslash. */
  predicate ClosedText(text: string)
    decreases text
  {
    text == "" || (if text[0] == '\\' then |text| > 1 && ClosedText(text[2..])
      else text[0] != '"' && ClosedText(text[1..]))
  }

  /** A text; the error of one that stops behind the end is reported at a position past the source, where
      an assertion of the code fails. */
  function FromText(s: string): Found
    requires s != ""
  {
    var i := StringStop(s, 0);
    if i < |s| - 1 then Found(Token(StrLiteral, Text(s[1..1 + i])), i + 2)
    else if i == |s| then Failed
    else Nothing(Some(Report(TerminatedStringLiteral, i)))
  }

  function FromNumber(n: NumToken): Found {
    match n
    case NoNumber(error, at) => Nothing(Some(Report(error, at)))
    case IntToken(v, l) => Found(Token(IntLiteral, IntValue(v)), l)
    case FloatToken(f, l) => Found(Token(FloatLiteral, FloatValue(f)), l)
  }

  /** `try_parse_literal_or_identifier` */
  function LiteralOrIdentifier(s: string): Found {
    if s == "" then Nothing(None)
    else if s[0] == '\'' then Failed
    else if s[0] == '"' then FromText(s)
    else if IsDigit(s[0]) || s[0] == '-' then FromNumber(Parse(s))
    else if IsAlphabeticOrUnderscore(s[0]) then
      var end := IdentifierEnd(s, 1);
      Found(NameToken(s[..end]), end)
    else Nothing(None)
  }

  /** After these an ampersand is an operator. */
  predicate EndsInteger(t: TokenType) {
    t == IntLiteral || t == Identifier
  }

  /** After these an asterisk or a minus sign is an operator. */
  predicate EndsNumeric(t: TokenType) {
    t == IntLiteral || t == FloatLiteral || t == Identifier
  }

  function Ambiguous(s: string, previous: TokenType): Option<Found> {
    if "&" <= s then Some(Found(Plain(if EndsInteger(previous) then BitAndOperator else ReferenceSymbol), 1))
    else if "*" <= s then Some(Found(Plain(if EndsNumeric(previous) then MultiplyOperator else PointerSymbol), 1))
    else if "-" <= s then
      Some(if EndsNumeric(previous) then Found(Plain(SubtractOperator), 1) else FromNumber(Parse(s)))
    else None
  }

  /** What stands at the start of `s`. */
  function Recognise(s: string, previous: TokenType): Found {
    var keyword := FirstKeyword(s, 0);
    if keyword.Some? then Found(Plain(keyword.value), |Spelling(keyword.value)|)
    else
      var symbol := FirstSymbol(s, 0);
      if symbol.Some? then Found(Plain(symbol.value), |Spelling(symbol.value)|)
      else
        var ambiguous := Ambiguous(s, previous);
        if ambiguous.Some? then ambiguous.value else LiteralOrIdentifier(s)
  }

  function SkipSpaces(source: string, i: nat): (r: nat)
    requires i <= |source|
    ensures i <= r <= |source|
    decreases |source| - i
  {
    if i < |source| && IsSpace(source[i]) then SkipSpaces(source, i + 1) else i
  }

  /** `get_next_token` from `index` on. */
  function NextToken(source: string, index: nat, previous: TokenType): Found
    requires index <= |source|
  {
    Recognise(source[SkipSpaces(source, index)..], previous)
  }

  // ---- Progress ----

  lemma {:induction false} KeywordFits(s: string, k: nat)
    requires k <= KEYWORD_COUNT
    ensures var r := FirstKeyword(s, k); r.Some? ==> 0 < |Spelling(r.value)| <= |s|
    decreases KEYWORD_COUNT - k
  {
    hide Spelling, KeywordAt, EndsKeyword;
    if k < KEYWORD_COUNT {
      KeywordIsWord(k);
      KeywordFits(s, k + 1);
    }
  }

  lemma {:induction false} SymbolFits(s: string, k: nat)
    requires k <= SYMBOL_COUNT
    ensures var r := FirstSymbol(s, k); r.Some? ==> 0 < |Spelling(r.value)| <= |s|
    decreases SYMBOL_COUNT - k
  {
    hide Spelling, SymbolAt;
    if k < SYMBOL_COUNT {
      SymbolChars(k);
      SymbolFits(s, k + 1);
    }
  }

  lemma {:induction false} NumberFits(s: string)
    requires s != "" && (IsDigit(s[0]) || s[0] == '-')
    ensures var r := FromNumber(Parse(s));
            (r.Found? ==> 0 < r.length <= |s|) && (r.Nothing? ==> r.report.Some? && r.report.value.at < |s|)
  {
    var start := if s[0] == '-' then 1 else 0;
    assert IsDigit(s[0]) ==> ScanWhole(s, 0, Int(0)) == ScanWhole(s, 1, AddDigit(Int(0), Digit(s[0])));
    hide AddDigit, ScanWhole, ScanDecimals;
  }

  /** A token found takes at least one character and stays within the source, and so does a report. */
  lemma {:induction false} RecogniseFits(s: string, previous: TokenType)
    ensures var r := Recognise(s, previous);
            (r.Found? ==> 0 < r.length <= |s|) && (r.Nothing? && r.report.Some? ==> r.report.value.at < |s|)
  {
    hide FirstKeyword, FirstSymbol, Spelling, Parse, StringStop, IdentifierEnd, FromNumber;
    KeywordFits(s, 0);
    SymbolFits(s, 0);
    if s != "" && (IsDigit(s[0]) || s[0] == '-') {
      NumberFits(s);
    }
  }

  lemma {:induction false} FoundIsToken(s: string, previous: TokenType)
    ensures var r := Recognise(s, previous); r.Found? ==> r.token.tag != TokenNone
  {
    hide FirstKeyword, FirstSymbol, Parse, StringStop, IdentifierEnd;
    KeywordFits(s, 0);
    SymbolFits(s, 0);
    assert Spelling(TokenNone) == "";
  }

  /** The tokens of a source from `index` on, up to the first place where none is found; `None` if an
      assertion fails. */
  function Tokenize(source: string, index: nat, previous: TokenType): Option<seq<Token>>
    requires index <= |source|
    decreases |source| - index
  {
    var r := NextToken(source, index, previous);
    RecogniseFits(source[SkipSpaces(source, index)..], previous);
    match r
    case Nothing(_) => Some([])
    case Failed => None
    case Found(t, length) =>
      (match Tokenize(source, SkipSpaces(source, index) + length, t.tag)
       case None => None
       case Some(ts) => Some([t] + ts))
  }

  // ---- The code ----

  method FindKeyword(s: string) returns (r: Option<TokenType>)
    ensures r == FirstKeyword(s, 0)
  {
    hide Spelling, KeywordAt, StartsWithKeyword;
    for k := 0 to KEYWORD_COUNT
      invariant FirstKeyword(s, k) == FirstKeyword(s, 0)
    {
      if StartsWithKeyword(s, Spelling(KeywordAt(k))) {
        return Some(KeywordAt(k));
      }
    }
    r := None;
  }

  method FindSymbol(s: string) returns (r: Option<TokenType>)
    ensures r == FirstSymbol(s, 0)
  {
    hide Spelling, SymbolAt;
    for k := 0 to SYMBOL_COUNT
      invariant FirstSymbol(s, k) == FirstSymbol(s, 0)
    {
      if Spelling(SymbolAt(k)) <= s {
        return Some(SymbolAt(k));
      }
    }
    r := None;
  }

  /** `try_parse_string_literal` */
  method TryParseString(s: string) returns (r: Found)
    requires s != "" && s[0] == '"'
    ensures r == LiteralOrIdentifier(s)
  {
    if |s| == 1 {
      return Nothing(Some(Report(TerminatedStringLiteral, 0)));
    }
    var i := 0;
    while true
      invariant i <= |s| && StringStop(s, i) == StringStop(s, 0)
      decreases |s| - i
    {
      if i >= |s| - 1 {
        return if i == |s| then Failed else Nothing(Some(Report(TerminatedStringLiteral, i)));
      }
      var c := s[1 + i];
      if c == '\\' {
        i := i + 2;
      } else if c == '"' {
        break;
      } else {
        i := i + 1;
      }
    }
    r := Found(Token(StrLiteral, Text(s[1..1 + i])), i + 2);
  }

  /** `try_parse_identifier`; it stops at the latest at the NUL behind the source. */
  method TryParseIdentifier(s: string) returns (r: Found)
    requires s != "" && IsAlphabeticOrUnderscore(s[0])
    ensures r == LiteralOrIdentifier(s)
  {
    var i := 1;
    while InIdentifier(CharAt(s, i))
      invariant i <= |s| && IdentifierEnd(s, i) == IdentifierEnd(s, 1)
      decreases |s| - i
    {
      i := i + 1;
    }
    r := Found(NameToken(s[..i]), i);
  }

  method TryParseLiteralOrIdentifier(s: string) returns (r: Found)
    requires '\0' !in s
    ensures r == LiteralOrIdentifier(s)
  {
    if s == "" {
      return Nothing(None);
    }
    var firstChar := s[0];
    if firstChar == '\'' {
      r := Failed;
    } else if firstChar == '"' {
      r := TryParseString(s);
    } else if IsDigit(firstChar) || firstChar == '-' {
      var n := TryParse(s);
      r := FromNumber(n);
    } else if IsAlphabeticOrUnderscore(firstChar) {
      r := TryParseIdentifier(s);
    } else {
      r := Nothing(None);
    }
  }

  /** `get_next_token`; the source has no NUL inside. */
  method GetNextToken(source: string, index: nat, previous: TokenType) returns (r: Found, whitespace: nat)
    requires index <= |source| && '\0' !in source
    ensures r == NextToken(source, index, previous) && index + whitespace == SkipSpaces(source, index)
  {
    hide FirstKeyword, FirstSymbol, LiteralOrIdentifier, Spelling, Parse;
    whitespace := 0;
    while index + whitespace < |source| && IsSpace(source[index + whitespace])
      invariant index + whitespace <= |source| && SkipSpaces(source, index + whitespace) == SkipSpaces(source, index)
    {
      whitespace := whitespace + 1;
    }
    var s := source[index + whitespace..];
    var keyword := FindKeyword(s);
    if keyword.Some? {
      return Found(Plain(keyword.value), |Spelling(keyword.value)|), whitespace;
    }
    var symbol := FindSymbol(s);
    if symbol.Some? {
      return Found(Plain(symbol.value), |Spelling(symbol.value)|), whitespace;
    }
    if "&" <= s {
      r := Found(Plain(if EndsInteger(previous) then BitAndOperator else ReferenceSymbol), 1);
    } else if "*" <= s {
      r := Found(Plain(if EndsNumeric(previous) then MultiplyOperator else PointerSymbol), 1);
    } else if "-" <= s {
      if EndsNumeric(previous) {
        r := Found(Plain(SubtractOperator), 1);
      } else {
        var n := TryParse(s);
        r := FromNumber(n);
      }
    } else {
      r := TryParseLiteralOrIdentifier(s);
    }
  }

  /** A place in the source, with its line and column. */
  datatype Position = Position(index: nat, line: nat, column: nat)

  /** `get_updated_position`: past the characters of `s` up to and including the one at `end`. */
  function Updated(p: Position, s: string, end: nat): Position
    requires end < |s|
    decreases end
  {
    var q := if end == 0 then p else Updated(p, s, end - 1).(index := p.index);
    Passed(q, s[end]).(index := p.index + end)
  }

  function Passed(p: Position, c: char): Position {
    if c == '\n' then p.(line := p.line + 1, column := 1)
    else p.(column := p.column + if c == '\t' then 4 else 1)
  }

  /** Where an error is reported that a token's scan found: the start of the token is counted once on the way
      to it and once more from it. */
  function ReportedAt(p: Position, source: string, r: Report): Position
    requires p.index <= |source| && SkipSpaces(source, p.index) + r.at < |source|
  {
    var start := SkipSpaces(source, p.index);
    Updated(Updated(p, source[p.index..], start - p.index), source[start..], r.at)
  }

  class TokenIter {
    const source: string
    var position: Position
    var previous: Token
    var current: Token
    /** The calls of the error callback so far. */
    var errors: seq<(ErrorKind, Position)>

    ghost predicate Valid()
      reads this
    {
      position.index <= |source| && '\0' !in source
    }

    constructor (source: string)
      requires '\0' !in source
      ensures Valid() && this.source == source && position == Position(0, 1, 1) && current == NO_TOKEN && errors == []
    {
      this.source := source;
      position, previous, current, errors := Position(0, 1, 1), NO_TOKEN, NO_TOKEN, [];
    }

    /** `cubs_token_iter_next`: the index moves past a token that is found, and stays where it is if none is;
        line and column stay as they are in any case. `None` for a failed assertion. */
    method Next() returns (tag: Option<TokenType>)
      requires Valid()
      modifies this
      ensures Valid() && old(position.index) <= position.index && previous == old(current)
      ensures position.line == old(position.line) && position.column == old(position.column)
      ensures match NextToken(source, old(position.index), old(current.tag))
              case Nothing(report) =>
                && tag == Some(TokenNone) && current == NO_TOKEN && position == old(position)
                && (report.None? ==> errors == old(errors))
                && (report.Some? ==>
                      && SkipSpaces(source, position.index) + report.value.at < |source|
                      && errors == old(errors) + [(report.value.error, ReportedAt(position, source, report.value))])
              case Failed => tag.None? && errors == old(errors)
              case Found(t, length) =>
                && tag == Some(t.tag) && current == t && errors == old(errors)
                && position.index == SkipSpaces(source, old(position.index)) + length > old(position.index)
    {
      hide Recognise, Updated, Passed;
      var next, whitespace := GetNextToken(source, position.index, current.tag);
      RecogniseFits(source[position.index + whitespace..], current.tag);
      previous := current;
      match next
      case Failed => tag := None;
      case Nothing(report) =>
        if report.Some? {
          errors := errors + [(report.value.error, ReportedAt(position, source, report.value))];
        }
        current := NO_TOKEN;
        tag := Some(TokenNone);
      case Found(t, length) =>
        position := position.(index := position.index + length + whitespace);
        current := t;
        tag := Some(t.tag);
    }
  }

  function Following(ts: seq<Token>, rest: Option<seq<Token>>): Option<seq<Token>> {
    if rest.None? then None else Some(ts + rest.value)
  }

  /** Tokens found so far, and the next step. */
  lemma {:induction false} FollowingStep(ts: seq<Token>, source: string, index: nat, previous: TokenType)
    requires index <= |source|
    ensures match NextToken(source, index, previous)
            case Nothing(_) => Following(ts, Tokenize(source, index, previous)) == Some(ts)
            case Failed => Following(ts, Tokenize(source, index, previous)) == None
            case Found(t, length) =>
              && t.tag != TokenNone && SkipSpaces(source, index) + length <= |source|
              && Following(ts, Tokenize(source, index, previous))
                 == Following(ts + [t], Tokenize(source, SkipSpaces(source, index) + length, t.tag))
  {
    hide Recognise, SkipSpaces;
    var s := source[SkipSpaces(source, index)..];
    RecogniseFits(s, previous);
    FoundIsToken(s, previous);
    match Recognise(s, previous)
    case Nothing(_) => assert ts + [] == ts;
    case Failed =>
    case Found(t, length) =>
      var rest := Tokenize(source, SkipSpaces(source, index) + length, t.tag);
      assert rest.Some? ==> ts + ([t] + rest.value) == ts + [t] + rest.value;
  }

  lemma FollowingNone(rest: Option<seq<Token>>)
    ensures Following([], rest) == rest
  {
    assert rest.Some? ==> [] + rest.value == rest.value;
  }

  /** All tokens of a source, taken one after the other. */
  method TokenizeAll(source: string) returns (r: Option<seq<Token>>)
    requires '\0' !in source
    ensures r == Tokenize(source, 0, TokenNone)
  {
    hide Tokenize, SkipSpaces, NextToken, Following;
    var iter := new TokenIter(source);
    var ts: seq<Token> := [];
    FollowingNone(Tokenize(source, 0, TokenNone));
    while true
      invariant fresh(iter) && iter.source == source && iter.Valid()
      invariant Tokenize(source, 0, TokenNone) == Following(ts, Tokenize(source, iter.position.index, iter.current.tag))
      decreases |source| - iter.position.index
    {
      FollowingStep(ts, source, iter.position.index, iter.current.tag);
      var tag := iter.Next();
      if tag.None? {
        return None;
      }
      if tag.value == TokenNone {
        return Some(ts);
      }
      ts := ts + [iter.current];
    }
  }
}
