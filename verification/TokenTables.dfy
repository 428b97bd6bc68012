/** The tables of the tokenizer (src/compiler/tokenizer.c:364-440): how keywords, operators and symbols are
    written, and in which order they are tried (src/compiler/tokenizer.c:478-683). */
module TokenTables {
  import opened Tokens

  const KEYWORD_COUNT: nat := 31
  const SYMBOL_COUNT: nat := 34

  /** Tokens that are always written the same way. */
  function Spelling(t: TokenType): string {
    match t
    case ConstKeyword => "const"
    case MutKeyword => "mut"
    case ReturnKeyword => "return"
    case FnKeyword => "fn"
    case PubKeyword => "pub"
    case IfKeyword => "if"
    case ElseKeyword => "else"
    case SwitchKeyword => "switch"
    case WhileKeyword => "while"
    case ForKeyword => "for"
    case BreakKeyword => "break"
    case ContinueKeyword => "continue"
    case StructKeyword => "struct"
    case InterfaceKeyword => "interface"
    case EnumKeyword => "enum"
    case UnionKeyword => "union"
    case SyncKeyword => "sync"
    case UnsafeKeyword => "unsafe"
    case TrueKeyword => "true"
    case FalseKeyword => "false"
    case BoolKeyword => "bool"
    case IntKeyword => "int"
    case FloatKeyword => "float"
    case StrKeyword => "str"
    case CharKeyword => "char"
    case ImportKeyword => "import"
    case ModKeyword => "mod"
    case ExternKeyword => "extern"
    case AndKeyword => "and"
    case OrKeyword => "or"
    case NullKeyword => "null"
    case BitshiftLeftAssignOperator => "<<="
    case BitshiftLeftOperator => "<<"
    case BitshiftRightAssignOperator => ">>="
    case BitshiftRightOperator => ">>"
    case EqualOperator => "=="
    case AssignOperator => "="
    case NotEqualOperator => "!="
    case NotOperator => "!"
    case LessEqualOperator => "<="
    case LessOperator => "<"
    case GreaterEqualOperator => ">="
    case GreaterOperator => ">"
    case AddAssignOperator => "+="
    case AddOperator => "+"
    case SubtractAssignOperator => "-="
    case MultiplyAssignOperator => "*="
    case DivideAssignOperator => "/="
    case DivideOperator => "/"
    case BitComplementOperator => "~"
    case BitOrAssignOperator => "|="
    case BitOrOperator => "|"
    case BitAndAssignOperator => "&="
    case BitXorAssignOperator => "^="
    case BitXorOperator => "^"
    case LeftParenthesesSymbol => "("
    case RightParenthesesSymbol => ")"
    case LeftBracketSymbol => "["
    case RightBracketSymbol => "]"
    case LeftBraceSymbol => "{"
    case RightBraceSymbol => "}"
    case ColonSymbol => ":"
    case SemicolonSymbol => ";"
    case PeriodSymbol => "."
    case CommaSymbol => ","
    case BitAndOperator => "&"
    case ReferenceSymbol => "&"
    case MultiplyOperator => "*"
    case PointerSymbol => "*"
    case SubtractOperator => "-"
    case _ => ""
  }

  /** The keyword that is tried in place `k`. */
  function KeywordAt(k: nat): TokenType {
    match k
    case 0 => ConstKeyword
    case 1 => MutKeyword
    case 2 => ReturnKeyword
    case 3 => FnKeyword
    case 4 => PubKeyword
    case 5 => IfKeyword
    case 6 => ElseKeyword
    case 7 => SwitchKeyword
    case 8 => WhileKeyword
    case 9 => ForKeyword
    case 10 => BreakKeyword
    case 11 => ContinueKeyword
    case 12 => StructKeyword
    case 13 => InterfaceKeyword
    case 14 => EnumKeyword
    case 15 => UnionKeyword
    case 16 => SyncKeyword
    case 17 => UnsafeKeyword
    case 18 => TrueKeyword
    case 19 => FalseKeyword
    case 20 => BoolKeyword
    case 21 => IntKeyword
    case 22 => FloatKeyword
    case 23 => StrKeyword
    case 24 => CharKeyword
    case 25 => ImportKeyword
    case 26 => ModKeyword
    case 27 => ExternKeyword
    case 28 => AndKeyword
    case 29 => OrKeyword
    case _ => NullKeyword
  }

  /** The operator or symbol that is tried in place `k`; longer ones come before their beginnings. */
  function SymbolAt(k: nat): TokenType {
    match k
    case 0 => BitshiftLeftAssignOperator
    case 1 => BitshiftLeftOperator
    case 2 => BitshiftRightAssignOperator
    case 3 => BitshiftRightOperator
    case 4 => EqualOperator
    case 5 => AssignOperator
    case 6 => NotEqualOperator
    case 7 => NotOperator
    case 8 => LessEqualOperator
    case 9 => LessOperator
    case 10 => GreaterEqualOperator
    case 11 => GreaterOperator
    case 12 => AddAssignOperator
    case 13 => AddOperator
    case 14 => SubtractAssignOperator
    case 15 => MultiplyAssignOperator
    case 16 => DivideAssignOperator
    case 17 => DivideOperator
    case 18 => BitComplementOperator
    case 19 => BitOrAssignOperator
    case 20 => BitOrOperator
    case 21 => BitAndAssignOperator
    case 22 => BitXorAssignOperator
    case 23 => BitXorOperator
    case 24 => LeftParenthesesSymbol
    case 25 => RightParenthesesSymbol
    case 26 => LeftBracketSymbol
    case 27 => RightBracketSymbol
    case 28 => LeftBraceSymbol
    case 29 => RightBraceSymbol
    case 30 => ColonSymbol
    case 31 => SemicolonSymbol
    case 32 => PeriodSymbol
    case _ => CommaSymbol
  }

  predicate IsKeyword(t: TokenType) {
    exists k :: 0 <= k < KEYWORD_COUNT && KeywordAt(k) == t
  }

  predicate IsSymbol(t: TokenType) {
    exists k :: 0 <= k < SYMBOL_COUNT && SymbolAt(k) == t
  }

  predicate IsLowerCase(c: char) {
    'a' <= c <= 'z'
  }

  predicate IsWord(s: string) {
    |s| >= 2 && forall i :: 0 <= i < |s| ==> IsLowerCase(s[i])
  }

  /** Keywords are words of at least two small letters. */
  lemma KeywordIsWord(k: nat)
    requires k < KEYWORD_COUNT
    ensures IsWord(Spelling(KeywordAt(k)))
  {
    hide IsWord;
    if k < 10 {
      StatementWords(k);
    } else if k < 20 {
      DeclarationWords(k);
    } else if k < 26 {
      TypeWords(k);
    } else {
      OtherWords(k);
    }
  }

  lemma StatementWords(k: nat)
    requires k < 10
    ensures IsWord(Spelling(KeywordAt(k)))
  {
  }

  lemma DeclarationWords(k: nat)
    requires 10 <= k < 20
    ensures IsWord(Spelling(KeywordAt(k)))
  {
  }

  lemma TypeWords(k: nat)
    requires 20 <= k < 26
    ensures IsWord(Spelling(KeywordAt(k)))
  {
  }

  lemma OtherWords(k: nat)
    requires 26 <= k < KEYWORD_COUNT
    ensures IsWord(Spelling(KeywordAt(k)))
  {
  }

  /** A keyword is known by its length and first two letters. */
  function BySignature(length: nat, first: char, second: char): TokenType {
    if length == 2 then
      (if first == 'f' then FnKeyword
       else if first == 'i' then IfKeyword
       else OrKeyword)
    else if length == 3 then
      (if first == 'm' && second == 'u' then MutKeyword
       else if first == 'p' then PubKeyword
       else if first == 'f' then ForKeyword
       else if first == 'i' then IntKeyword
       else if first == 's' then StrKeyword
       else if first == 'm' && second == 'o' then ModKeyword
       else AndKeyword)
    else if length == 4 then
      (if first == 'e' && second == 'l' then ElseKeyword
       else if first == 'e' && second == 'n' then EnumKeyword
       else if first == 's' then SyncKeyword
       else if first == 't' then TrueKeyword
       else if first == 'b' then BoolKeyword
       else if first == 'c' then CharKeyword
       else NullKeyword)
    else if length == 5 then
      (if first == 'c' then ConstKeyword
       else if first == 'w' then WhileKeyword
       else if first == 'b' then BreakKeyword
       else if first == 'u' then UnionKeyword
       else if first == 'f' && second == 'a' then FalseKeyword
       else FloatKeyword)
    else if length == 6 then
      (if first == 'r' then ReturnKeyword
       else if first == 's' && second == 'w' then SwitchKeyword
       else if first == 's' && second == 't' then StructKeyword
       else if first == 'u' then UnsafeKeyword
       else if first == 'i' then ImportKeyword
       else ExternKeyword)
    else if length == 8 then ContinueKeyword
    else InterfaceKeyword
  }

  lemma KeywordSignature(k: nat)
    requires k < KEYWORD_COUNT
    ensures var s := Spelling(KeywordAt(k)); |s| >= 2 && BySignature(|s|, s[0], s[1]) == KeywordAt(k)
  {
  }

  lemma KeywordsDiffer(k: nat, l: nat)
    requires k < KEYWORD_COUNT && l < KEYWORD_COUNT && Spelling(KeywordAt(k)) == Spelling(KeywordAt(l))
    ensures KeywordAt(k) == KeywordAt(l)
  {
    hide Spelling, KeywordAt, BySignature;
    KeywordSignature(k);
    KeywordSignature(l);
  }

  predicate IsPunctuation(c: char) {
    ('!' <= c <= '/' || ':' <= c <= '@' || '[' <= c <= '^' || '{' <= c <= '~') && c != '"' && c != '\''
  }

  predicate SymbolShape(k: nat) {
    var s := Spelling(SymbolAt(k));
    && 1 <= |s| <= 3 && |s| == SymbolLength(k)
    && s[0] == SymbolFirst(k) && IsPunctuation(s[0])
    && (|s| > 1 ==> s[1] == SymbolSecond(k) && s[1] in "=<>")
    && (|s| > 2 ==> s[2] == '=')
  }

  /** Operators and symbols have one to three characters, of which the first is no letter, digit or blank and
      the others are `=`, `<` or `>`. */
  lemma SymbolChars(k: nat)
    requires k < SYMBOL_COUNT
    ensures SymbolShape(k)
  {
    hide SymbolShape;
    if k < 6 {
      AssignmentChars(k);
    } else if k < 12 {
      ComparisonChars(k);
    } else if k < 18 {
      ArithmeticChars(k);
    } else if k < 24 {
      BitwiseChars(k);
    } else if k < 30 {
      BracketChars(k);
    } else {
      PunctuationChars(k);
    }
  }

  lemma AssignmentChars(k: nat)
    requires k < 6
    ensures SymbolShape(k)
  {
  }

  lemma ComparisonChars(k: nat)
    requires 6 <= k < 12
    ensures SymbolShape(k)
  {
  }

  lemma ArithmeticChars(k: nat)
    requires 12 <= k < 18
    ensures SymbolShape(k)
  {
  }

  lemma BitwiseChars(k: nat)
    requires 18 <= k < 24
    ensures SymbolShape(k)
  {
  }

  lemma BracketChars(k: nat)
    requires 24 <= k < 30
    ensures SymbolShape(k)
  {
  }

  lemma PunctuationChars(k: nat)
    requires 30 <= k < SYMBOL_COUNT
    ensures SymbolShape(k)
  {
  }

  function SymbolLength(k: nat): nat {
    if k == 0 || k == 2 then 3
    else if k in {1, 3, 4, 6, 8, 10, 12, 14, 15, 16, 19, 21, 22} then 2
    else 1
  }

  function SymbolFirst(k: nat): char {
    if k <= 1 then '<' else if k <= 3 then '>' else if k <= 5 then '=' else if k <= 7 then '!'
    else if k <= 9 then '<' else if k <= 11 then '>' else if k <= 13 then '+' else if k <= 14 then '-'
    else if k <= 15 then '*' else if k <= 17 then '/' else if k <= 18 then '~' else if k <= 20 then '|'
    else if k <= 21 then '&' else if k <= 23 then '^' else if k <= 24 then '(' else if k <= 25 then ')'
    else if k <= 26 then '[' else if k <= 27 then ']' else if k <= 28 then '{' else if k <= 29 then '}'
    else if k <= 30 then ':' else if k <= 31 then ';' else if k <= 32 then '.' else ','
  }

  function SymbolSecond(k: nat): char {
    if k == 0 || k == 1 then '<' else if k == 2 || k == 3 then '>' else '='
  }

  /** No entry is a beginning of a later one. */
  lemma SymbolOrder(k: nat, l: nat)
    requires k < l < SYMBOL_COUNT
    ensures !(Spelling(SymbolAt(k)) <= Spelling(SymbolAt(l)))
  {
    hide Spelling, SymbolAt, IsPunctuation;
    SymbolChars(k);
    SymbolChars(l);
  }
}
