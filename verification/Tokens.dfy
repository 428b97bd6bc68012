/** Tokens (src/compiler/tokenizer.h) and how the functions of the language are written with them. */
module Tokens {
  import opened IntMath
  import opened Language

  datatype TokenType =
    | TokenNone
    | ConstKeyword | MutKeyword | ReturnKeyword | FnKeyword | PubKeyword | IfKeyword | ElseKeyword | SwitchKeyword
    | WhileKeyword | ForKeyword | BreakKeyword | ContinueKeyword | StructKeyword | InterfaceKeyword | EnumKeyword
    | UnionKeyword | SyncKeyword | UnsafeKeyword | TrueKeyword | FalseKeyword | BoolKeyword | IntKeyword
    | FloatKeyword | StrKeyword | CharKeyword | ImportKeyword | ModKeyword | ExternKeyword | AndKeyword | OrKeyword
    | NullKeyword
    | AssignOperator | EqualOperator | NotEqualOperator | NotOperator | LessOperator | LessEqualOperator
    | GreaterOperator | GreaterEqualOperator | AddOperator | AddAssignOperator | SubtractOperator
    | SubtractAssignOperator | MultiplyOperator | MultiplyAssignOperator | DivideOperator | DivideAssignOperator
    | BitshiftLeftOperator | BitshiftLeftAssignOperator | BitshiftRightOperator | BitshiftRightAssignOperator
    | BitComplementOperator | BitOrOperator | BitOrAssignOperator | BitAndOperator | BitAndAssignOperator
    | BitXorOperator | BitXorAssignOperator
    | LeftParenthesesSymbol | RightParenthesesSymbol | LeftBracketSymbol | RightBracketSymbol | LeftBraceSymbol
    | RightBraceSymbol | ColonSymbol | SemicolonSymbol | PeriodSymbol | CommaSymbol | ReferenceSymbol | PointerSymbol
    | IntLiteral | FloatLiteral | StrLiteral | Identifier

  /** A float literal has an exact number, where the code rounds to a double. */
  datatype Metadata = NoValue | IntValue(int64: Int64) | FloatValue(number: real) | Text(text: string)

  datatype Token = Token(tag: TokenType, value: Metadata)

  const NO_TOKEN: Token := Token(TokenNone, NoValue)

  function Plain(tag: TokenType): Token {
    Token(tag, NoValue)
  }

  /** `is_token_operator` */
  predicate IsOperator(tag: TokenType) {
    match tag
    case AssignOperator | EqualOperator | NotEqualOperator | NotOperator | LessOperator | LessEqualOperator
       | GreaterOperator | GreaterEqualOperator | AddOperator | AddAssignOperator | SubtractOperator
       | SubtractAssignOperator | MultiplyOperator | MultiplyAssignOperator | DivideOperator | DivideAssignOperator
       | BitshiftLeftOperator | BitshiftLeftAssignOperator | BitshiftRightOperator | BitshiftRightAssignOperator
       | BitComplementOperator | BitOrOperator | BitOrAssignOperator | BitAndOperator | BitAndAssignOperator
       | BitXorOperator | BitXorAssignOperator => true
    case _ => false
  }

  // ---- Spelling functions with tokens ----

  function NameToken(name: string): Token {
    Token(Identifier, Text(name))
  }

  function OperandToken(o: Operand): Token {
    match o
    case Lit(v) => Token(IntLiteral, IntValue(v))
    case Name(n) => NameToken(n)
  }

  function ExprTokens(e: Expr): (ts: seq<Token>)
    ensures |ts| > 0
  {
    match e
    case One(o) => [OperandToken(o)]
    case Sum(l, r) => [OperandToken(l), Plain(AddOperator), OperandToken(r)]
  }

  /** `mutable` chooses between `mut` and `const`. */
  function StatementTokens(s: Statement, mutable: bool): (ts: seq<Token>)
    ensures |ts| > 0
  {
    match s
    case Declare(x, init) =>
      [Plain(if mutable then MutKeyword else ConstKeyword), NameToken(x), Plain(ColonSymbol), Plain(IntKeyword)]
      + (if init.Some? then [Plain(AssignOperator)] + ExprTokens(init.value) else []) + [Plain(SemicolonSymbol)]
    case Return(e) => [Plain(ReturnKeyword)] + (if e.Some? then ExprTokens(e.value) else []) + [Plain(SemicolonSymbol)]
  }

  function BodyTokens(body: seq<Statement>, mutable: seq<bool>): seq<Token>
    requires |mutable| == |body|
  {
    if body == [] then [] else StatementTokens(body[0], mutable[0]) + BodyTokens(body[1..], mutable[1..])
  }

  function ParamsTokens(params: seq<string>): seq<Token> {
    if params == [] then []
    else [NameToken(params[0]), Plain(ColonSymbol), Plain(IntKeyword)]
         + (if |params| > 1 then [Plain(CommaSymbol)] + ParamsTokens(params[1..]) else [])
  }

  /** From the closing parenthesis of the parameters on. */
  function ResultAndBodyTokens(returnsInt: bool, body: seq<Statement>, mutable: seq<bool>): (ts: seq<Token>)
    requires |mutable| == |body|
    ensures ts != []
  {
    (if returnsInt then [Plain(IntKeyword)] else [])
    + ([Plain(LeftBraceSymbol)] + (BodyTokens(body, mutable) + [Plain(RightBraceSymbol)]))
  }

  function FunctionTokens(f: Function, name: string, returnsInt: bool, mutable: seq<bool>): (ts: seq<Token>)
    requires |mutable| == |f.body|
    ensures ts != []
  {
    [Plain(FnKeyword)] + ([NameToken(name)] + ([Plain(LeftParenthesesSymbol)]
    + (ParamsTokens(f.params) + ([Plain(RightParenthesesSymbol)] + ResultAndBodyTokens(returnsInt, f.body, mutable)))))
  }
}
