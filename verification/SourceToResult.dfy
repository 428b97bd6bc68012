/** From the text of a function to the result of calling it: tokenizer, parser, code generator and
    interpreter together. */
module SourceToResult {
  import opened IntMath
  import opened StackSpec
  import opened Words
  import opened StackRuns
  import opened Options
  import opened Language
  import opened Tokens
  import opened TokenTables
  import opened Tokenizer
  import opened TokenizerRoundTrip
  import opened CodeGen
  import opened FrameMachine
  import opened CompilerCorrect
  import opened InterpreterStack
  import opened Interpreter
  import opened ScriptCall
  import opened Samples
  import opened TokenEnds
  import Parser

  // ---- Names a program can have ----

  predicate OperandNamed(o: Operand) {
    o.Name? ==> ValidName(o.name)
  }

  predicate ExprNamed(e: Expr) {
    match e
    case One(o) => OperandNamed(o)
    case Sum(l, r) => OperandNamed(l) && OperandNamed(r)
  }

  predicate StatementNamed(s: Statement) {
    match s
    case Declare(x, init) => ValidName(x) && (init.Some? ==> ExprNamed(init.value))
    case Return(e) => e.Some? ==> ExprNamed(e.value)
  }

  /** All names are identifiers and no keywords. */
  predicate FunctionNamed(f: Function, name: string) {
    && ValidName(name) && (forall i :: 0 <= i < |f.params| ==> ValidName(f.params[i]))
    && (forall i :: 0 <= i < |f.body| ==> StatementNamed(f.body[i]))
  }

  // ---- Their tokens can be spelled ----

  lemma OrdinaryTag(t: TokenType, previous: TokenType)
    requires IsKeyword(t) || IsSymbol(t)
    requires Spelling(t) != "" && (|Spelling(t)| > 1 || !IsAmbiguous(Spelling(t)[0]))
    ensures Admissible(Plain(t), previous)
  {
    hide Spelling, IsKeyword, IsSymbol, IsReading, Admissible;
    NumberSpelling();
    NameSpelling();
    TextSpelling();
    if IsReading(t) {
      ReadingSpelling(t);
    } else {
      FixedTag(t, previous);
    }
  }

  lemma FixedTag(t: TokenType, previous: TokenType)
    requires (IsKeyword(t) || IsSymbol(t)) && !IsReading(t)
    requires t != IntLiteral && t != Identifier && t != StrLiteral
    ensures Admissible(Plain(t), previous)
  {
    hide Spelling, IsKeyword, IsSymbol, EndsInteger, EndsNumeric, ValidName, ClosedText;
  }

  lemma AdmissibleKeyword(k: nat, previous: TokenType)
    requires k < KEYWORD_COUNT
    ensures Admissible(Plain(KeywordAt(k)), previous)
  {
    hide Spelling, KeywordAt, Admissible;
    KeywordIsWord(k);
    OrdinaryTag(KeywordAt(k), previous);
  }

  lemma AdmissibleSymbol(k: nat, previous: TokenType)
    requires k < SYMBOL_COUNT
    ensures Admissible(Plain(SymbolAt(k)), previous)
  {
    hide Spelling, SymbolAt, Admissible, SymbolLength, SymbolFirst, SymbolSecond;
    SymbolChars(k);
    if IsAmbiguous(SymbolFirst(k)) {
      AmbiguousSymbols(k);
    }
    OrdinaryTag(SymbolAt(k), previous);
  }

  lemma NumberSpelling()
    ensures Spelling(IntLiteral) == ""
  {
  }

  lemma NameSpelling()
    ensures Spelling(Identifier) == ""
  {
  }

  lemma TextSpelling()
    ensures Spelling(StrLiteral) == ""
  {
  }

  lemma FixedTokens(previous: TokenType)
    ensures Admissible(Plain(ConstKeyword), previous) && Admissible(Plain(MutKeyword), previous)
    ensures Admissible(Plain(ReturnKeyword), previous) && Admissible(Plain(FnKeyword), previous)
    ensures Admissible(Plain(IntKeyword), previous)
  {
    hide Admissible;
    AdmissibleKeyword(0, previous);
    AdmissibleKeyword(1, previous);
    AdmissibleKeyword(2, previous);
    AdmissibleKeyword(3, previous);
    AdmissibleKeyword(21, previous);
  }

  lemma FixedSymbols(previous: TokenType)
    ensures Admissible(Plain(AssignOperator), previous) && Admissible(Plain(AddOperator), previous)
    ensures Admissible(Plain(LeftParenthesesSymbol), previous) && Admissible(Plain(RightParenthesesSymbol), previous)
    ensures Admissible(Plain(LeftBraceSymbol), previous) && Admissible(Plain(RightBraceSymbol), previous)
    ensures Admissible(Plain(ColonSymbol), previous) && Admissible(Plain(SemicolonSymbol), previous)
    ensures Admissible(Plain(CommaSymbol), previous)
  {
    hide Admissible;
    AdmissibleSymbol(5, previous);
    AdmissibleSymbol(13, previous);
    AdmissibleSymbol(24, previous);
    AdmissibleSymbol(25, previous);
    AdmissibleSymbol(28, previous);
    AdmissibleSymbol(29, previous);
    AdmissibleSymbol(30, previous);
    AdmissibleSymbol(31, previous);
    AdmissibleSymbol(33, previous);
  }

  /** One admissible token in front. */
  lemma {:induction false} Before(t: Token, rest: seq<Token>, previous: TokenType)
    requires Admissible(t, previous) && AllAdmissible(rest, t.tag)
    ensures AllAdmissible([t] + rest, previous)
  {
    hide Admissible;
    assert ([t] + rest)[1..] == rest;
  }

  lemma NameAdmissible(name: string, previous: TokenType)
    requires ValidName(name)
    ensures Admissible(NameToken(name), previous)
  {
    hide ValidName;
  }

  lemma NamesAndOperands(o: Operand, previous: TokenType)
    requires OperandNamed(o) && !EndsNumeric(previous)
    ensures Admissible(OperandToken(o), previous)
  {
    hide ValidName;
  }

  lemma {:induction false} ExprAdmissible(e: Expr, rest: seq<Token>, previous: TokenType)
    requires ExprNamed(e) && !EndsNumeric(previous)
    requires forall t :: t == IntLiteral || t == Identifier ==> AllAdmissible(rest, t)
    ensures AllAdmissible(ExprTokens(e) + rest, previous)
  {
    hide Admissible, OperandNamed, AllAdmissible;
    match e
    case One(o) =>
      NamesAndOperands(o, previous);
      Before(OperandToken(o), rest, previous);
    case Sum(l, r) =>
      NamesAndOperands(l, previous);
      FixedSymbols(OperandToken(l).tag);
      NamesAndOperands(r, AddOperator);
      Before(OperandToken(r), rest, AddOperator);
      Before(Plain(AddOperator), [OperandToken(r)] + rest, OperandToken(l).tag);
      Before(OperandToken(l), [Plain(AddOperator)] + ([OperandToken(r)] + rest), previous);
      assert ExprTokens(e) + rest == [OperandToken(l)] + ([Plain(AddOperator)] + ([OperandToken(r)] + rest));
  }

  lemma {:induction false} ValueAdmissible(e: Expr, rest: seq<Token>, previous: TokenType)
    requires ExprNamed(e) && !EndsNumeric(previous) && AllAdmissible(rest, SemicolonSymbol)
    ensures AllAdmissible(ExprTokens(e) + ([Plain(SemicolonSymbol)] + rest), previous)
  {
    hide Admissible, AllAdmissible;
    forall t | t == IntLiteral || t == Identifier ensures AllAdmissible([Plain(SemicolonSymbol)] + rest, t) {
      FixedSymbols(t);
      Before(Plain(SemicolonSymbol), rest, t);
    }
    ExprAdmissible(e, [Plain(SemicolonSymbol)] + rest, previous);
  }

  lemma {:induction false} TypedNameAdmissible(x: string, rest: seq<Token>, previous: TokenType)
    requires ValidName(x) && AllAdmissible(rest, IntKeyword)
    ensures AllAdmissible([NameToken(x)] + ([Plain(ColonSymbol)] + ([Plain(IntKeyword)] + rest)), previous)
  {
    hide Admissible, AllAdmissible, ValidName;
    NameAdmissible(x, previous);
    FixedSymbols(Identifier);
    FixedTokens(ColonSymbol);
    Before(Plain(IntKeyword), rest, ColonSymbol);
    Before(Plain(ColonSymbol), [Plain(IntKeyword)] + rest, Identifier);
    Before(NameToken(x), [Plain(ColonSymbol)] + ([Plain(IntKeyword)] + rest), previous);
  }

  lemma {:induction false} NothingAdmissible(mutable: bool, rest: seq<Token>, previous: TokenType)
    requires AllAdmissible(rest, SemicolonSymbol)
    ensures AllAdmissible(StatementTokens(Statement.Return(None), mutable) + rest, previous)
  {
    hide Admissible, AllAdmissible, Plain;
    FixedTokens(previous);
    FixedSymbols(ReturnKeyword);
    PlainTag(SemicolonSymbol);
    PlainTag(ReturnKeyword);
    Before(Plain(SemicolonSymbol), rest, ReturnKeyword);
    Before(Plain(ReturnKeyword), [Plain(SemicolonSymbol)] + rest, previous);
    assert StatementTokens(Statement.Return(None), mutable) + rest
      == [Plain(ReturnKeyword)] + ([Plain(SemicolonSymbol)] + rest);
  }

  lemma PlainTag(t: TokenType)
    ensures Plain(t).tag == t
  {
  }

  lemma {:induction false} ReturnAdmissible(e: Expr, mutable: bool, rest: seq<Token>, previous: TokenType)
    requires ExprNamed(e) && AllAdmissible(rest, SemicolonSymbol)
    ensures AllAdmissible(StatementTokens(Statement.Return(Some(e)), mutable) + rest, previous)
  {
    hide Admissible, AllAdmissible, ExprTokens, ExprNamed, Plain;
    FixedTokens(previous);
    PlainTag(ReturnKeyword);
    var value := ExprTokens(e) + ([Plain(SemicolonSymbol)] + rest);
    ValueAdmissible(e, rest, ReturnKeyword);
    Before(Plain(ReturnKeyword), value, previous);
    assert StatementTokens(Statement.Return(Some(e)), mutable) + rest == [Plain(ReturnKeyword)] + value;
  }

  lemma {:induction false} InitAdmissible(init: Option<Expr>, rest: seq<Token>)
    requires (init.Some? ==> ExprNamed(init.value)) && AllAdmissible(rest, SemicolonSymbol)
    ensures AllAdmissible(Parser.ValueTokens(init, rest), IntKeyword)
  {
    hide Admissible, AllAdmissible, ExprTokens, ExprNamed;
    FixedSymbols(IntKeyword);
    if init.Some? {
      ValueAdmissible(init.value, rest, AssignOperator);
      Before(Plain(AssignOperator), ExprTokens(init.value) + ([Plain(SemicolonSymbol)] + rest), IntKeyword);
    } else {
      Before(Plain(SemicolonSymbol), rest, IntKeyword);
    }
  }

  lemma {:induction false} DeclareAdmissible(x: string, init: Option<Expr>, mutable: bool, rest: seq<Token>,
                                             previous: TokenType)
    requires StatementNamed(Declare(x, init)) && AllAdmissible(rest, SemicolonSymbol)
    ensures AllAdmissible(StatementTokens(Declare(x, init), mutable) + rest, previous)
  {
    hide Admissible, AllAdmissible, ExprTokens, ExprNamed, ValidName, Parser.ValueTokens;
    FixedTokens(previous);
    InitAdmissible(init, rest);
    var value := Parser.ValueTokens(init, rest);
    var keyword := Plain(if mutable then MutKeyword else ConstKeyword);
    TypedNameAdmissible(x, value, keyword.tag);
    Before(keyword, [NameToken(x)] + ([Plain(ColonSymbol)] + ([Plain(IntKeyword)] + value)), previous);
    Parser.DeclareTokens(x, init, mutable, rest);
    var all := StatementTokens(Declare(x, init), mutable) + rest;
    assert all == [keyword] + all[1..];
  }

  lemma {:induction false} StatementAdmissible(s: Statement, mutable: bool, rest: seq<Token>, previous: TokenType)
    requires StatementNamed(s) && AllAdmissible(rest, SemicolonSymbol)
    ensures AllAdmissible(StatementTokens(s, mutable) + rest, previous)
  {
    hide AllAdmissible, StatementTokens, ExprNamed, ValidName;
    match s
    case Return(None) => NothingAdmissible(mutable, rest, previous);
    case Return(Some(e)) => ReturnAdmissible(e, mutable, rest, previous);
    case Declare(x, init) => DeclareAdmissible(x, init, mutable, rest, previous);
  }

  lemma {:induction false} BodyAdmissible(body: seq<Statement>, mutable: seq<bool>, previous: TokenType)
    requires |mutable| == |body| && forall i :: 0 <= i < |body| ==> StatementNamed(body[i])
    ensures AllAdmissible(BodyTokens(body, mutable) + [Plain(RightBraceSymbol)], previous)
    decreases body
  {
    hide Admissible, StatementTokens, StatementNamed;
    var end := [Plain(RightBraceSymbol)];
    if body == [] {
      FixedSymbols(previous);
      assert BodyTokens(body, mutable) + end == end && end[1..] == [];
    } else {
      BodyAdmissible(body[1..], mutable[1..], SemicolonSymbol);
      var rest := BodyTokens(body[1..], mutable[1..]) + end;
      StatementAdmissible(body[0], mutable[0], rest, previous);
      assert BodyTokens(body, mutable) + end == StatementTokens(body[0], mutable[0]) + rest;
    }
  }

  lemma {:induction false} ParamsAdmissible(params: seq<string>, rest: seq<Token>, previous: TokenType)
    requires (forall i :: 0 <= i < |params| ==> ValidName(params[i])) && AllAdmissible(rest, RightParenthesesSymbol)
    ensures AllAdmissible(ParamsTokens(params) + ([Plain(RightParenthesesSymbol)] + rest), previous)
    decreases params
  {
    hide Admissible, AllAdmissible, ValidName;
    var end := [Plain(RightParenthesesSymbol)] + rest;
    FixedSymbols(previous);
    FixedSymbols(IntKeyword);
    if params == [] {
      Before(Plain(RightParenthesesSymbol), rest, previous);
      assert ParamsTokens(params) + end == end;
    } else {
      var more := if |params| > 1 then [Plain(CommaSymbol)] + (ParamsTokens(params[1..]) + end) else end;
      if |params| > 1 {
        ParamsAdmissible(params[1..], rest, CommaSymbol);
        Before(Plain(CommaSymbol), ParamsTokens(params[1..]) + end, IntKeyword);
      } else {
        Before(Plain(RightParenthesesSymbol), rest, IntKeyword);
      }
      TypedNameAdmissible(params[0], more, previous);
      assert ParamsTokens(params) + end
        == [NameToken(params[0])] + ([Plain(ColonSymbol)] + ([Plain(IntKeyword)] + more));
    }
  }

  lemma {:induction false} FunctionAdmissible(f: Function, name: string, returnsInt: bool, mutable: seq<bool>)
    requires |mutable| == |f.body| && FunctionNamed(f, name)
    ensures AllAdmissible(FunctionTokens(f, name, returnsInt, mutable), TokenNone)
  {
    hide Admissible, AllAdmissible, ValidName, StatementNamed, BodyTokens, ParamsTokens;
    NameAdmissible(name, FnKeyword);
    var body := BodyTokens(f.body, mutable) + [Plain(RightBraceSymbol)];
    BodyAdmissible(f.body, mutable, LeftBraceSymbol);
    var open := [Plain(LeftBraceSymbol)] + body;
    FixedSymbols(RightParenthesesSymbol);
    FixedSymbols(IntKeyword);
    FixedSymbols(Identifier);
    FixedTokens(RightParenthesesSymbol);
    FixedTokens(TokenNone);
    Before(Plain(LeftBraceSymbol), body, RightParenthesesSymbol);
    Before(Plain(LeftBraceSymbol), body, IntKeyword);
    Before(Plain(IntKeyword), open, RightParenthesesSymbol);
    var result := ResultAndBodyTokens(returnsInt, f.body, mutable);
    assert result == if returnsInt then [Plain(IntKeyword)] + open else open;
    ParamsAdmissible(f.params, result, LeftParenthesesSymbol);
    var params := ParamsTokens(f.params) + ([Plain(RightParenthesesSymbol)] + result);
    Before(Plain(LeftParenthesesSymbol), params, Identifier);
    Before(NameToken(name), [Plain(LeftParenthesesSymbol)] + params, FnKeyword);
    Before(Plain(FnKeyword), [NameToken(name)] + ([Plain(LeftParenthesesSymbol)] + params), TokenNone);
  }

  /** The text of a function, with gaps between its tokens. */
  function FunctionText(f: Function, name: string, returnsInt: bool, mutable: seq<bool>, gaps: seq<string>): string
    requires |mutable| == |f.body| && |gaps| == |FunctionTokens(f, name, returnsInt, mutable)| + 1
  {
    Spell(FunctionTokens(f, name, returnsInt, mutable), gaps)
  }

  /** The gaps keep the tokens of the function apart. */
  predicate TextLaidOut(f: Function, name: string, returnsInt: bool, mutable: seq<bool>, gaps: seq<string>) {
    && |mutable| == |f.body| && |gaps| == |FunctionTokens(f, name, returnsInt, mutable)| + 1
    && LaidOut(FunctionTokens(f, name, returnsInt, mutable), gaps)
  }

  /** Tokenizing the text of any function, in any layout, gives its tokens. */
  lemma {:induction false} FunctionTextTokens(f: Function, name: string, returnsInt: bool, mutable: seq<bool>,
                                              gaps: seq<string>)
    requires FunctionNamed(f, name) && TextLaidOut(f, name, returnsInt, mutable, gaps)
    ensures var text := FunctionText(f, name, returnsInt, mutable, gaps);
            '\0' !in text && Tokenize(text, 0, TokenNone) == Some(FunctionTokens(f, name, returnsInt, mutable))
  {
    hide AllAdmissible, Spell, LaidOut, FunctionTokens, Tokenize, FunctionNamed;
    FunctionAdmissible(f, name, returnsInt, mutable);
    TokenizeSpelling(FunctionTokens(f, name, returnsInt, mutable), gaps);
    SpellHasNoNul(FunctionTokens(f, name, returnsInt, mutable), gaps, TokenNone);
  }

  /** The text of a function is tokenized, parsed, compiled and run; the result is the meaning of the
      function, and the caller's frames are as before. */
  method RunText(text: string, stack: StackState, host: Host, start: Word, args: seq<Int64>,
                 returnValueDst: Word, returnContextDst: Word,
                 ghost f: Function, ghost name: string, ghost returnsInt: bool, ghost mutable: seq<bool>,
                 ghost gaps: seq<string>)
    returns (result: Option<Result>)
    requires FunctionNamed(f, name) && TextLaidOut(f, name, returnsInt, mutable, gaps)
    requires text == FunctionText(f, name, returnsInt, mutable, gaps)
    requires FunctionScoped(f) && |args| == |f.params|
    requires Inv(Machine(stack.State(), 0, {}))
    requires Compile(f).Some?
      ==> CanPush(stack.State(), Compile(f).value.frameLength) && CodeFits(Compile(f).value.code, start)
    requires Meaning(f, args).Returned? ==> returnValueDst != 0 && returnContextDst != 0
    modifies stack, host
    ensures Compile(f).None? <==> result.None?
    ensures result.None? ==> host.cells == old(host.cells)
    ensures result.Some? ==>
      match Meaning(f, args)
        case Returned(v) =>
          && returnContextDst in host.cells && host.cells[returnContextDst] == TypeCell(TypeContext(2, 8))
          && (returnValueDst != returnContextDst ==>
                returnValueDst in host.cells && host.cells[returnValueDst] == ValueCell(ToWord(v)))
          && (forall a :: a != returnValueDst && a != returnContextDst ==>
                && (a in host.cells <==> a in old(host.cells))
                && (a in host.cells ==> host.cells[a] == old(host.cells)[a]))
        case _ => host.cells == old(host.cells)
    ensures result.Some? ==>
      && result.value == (match Meaning(f, args)
                          case Returned(v) => Finished(Some(ToWord(v)))
                          case ReturnedNothing => Finished(None)
                          case AdditionOverflow => OverflowError)
      && CallerRestored(old(stack.State()), stack.State())
    ensures var s, r := old(stack.State()), stack.State();
      && |r.words| == |s.words| == |r.contexts| == |s.contexts| == STACK_SLOTS && s.nextBase <= STACK_SLOTS
      && r.nextBase == s.nextBase && (s.nextBase > 0 ==> r.frame == s.frame)
      && (forall i :: 0 <= i < s.nextBase ==> r.words[i] == s.words[i] && r.contexts[i] == s.contexts[i])
      && forall i :: s.nextBase <= i < STACK_SLOTS ==>
           r.contexts[i] == NoContext || (r.contexts[i].Typed? && r.contexts[i].isReference)
  {
    hide Inv, CallerRestored, Compile, Meaning, FunctionScoped, FunctionNamed, ResultOf, FunctionTokens, FunctionText,
      Tokenize, LaidOut;
    FunctionTextTokens(f, name, returnsInt, mutable, gaps);
    var tokens := TokenizeAll(text);
    NothingRun(stack.State());
    result := RunTokens(tokens.value, stack, host, start, args, returnValueDst, returnContextDst, f, name, returnsInt,
      mutable);
    RestoredExactly(old(stack.State()), stack.State());
  }

  lemma NothingRun(s: Stack)
    requires Inv(Machine(s, 0, {}))
    ensures CallerRestored(s, s)
  {
  }

  /** The function of `Samples` can be written: with one blank between all its tokens, for instance. */
  lemma {:induction false} SumText(gaps: seq<string>)
    requires |gaps| == 29 && forall i :: 0 <= i < 29 ==> gaps[i] == " "
    ensures FunctionNamed(SUM, "sum") && TextLaidOut(SUM, "sum", true, [false, false], gaps)
  {
    hide FunctionTokens, LaidOut, Spell, ValidName;
    SumTokens();
    ShortName("a");
    ShortName("b");
    ShortName("c");
    ShortName("sum");
    DividedIsLaidOut(FunctionTokens(SUM, "sum", true, [false, false]), gaps);
  }

  lemma {:induction false} ShortName(name: string)
    requires name == "a" || name == "b" || name == "c" || name == "sum"
    ensures ValidName(name)
  {
    NamesExactly(name);
    forall k | 0 <= k < 31 ensures KeywordTable()[k].0 != name {
    }
  }
}
