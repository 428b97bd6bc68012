/** The parser (src/compiler/ast_nodes): it steps through the tokens, collects the function's variables and
    builds the nodes. On the tokens of any function it builds exactly what elaboration says, or fails an
    assertion exactly where elaboration does; a failed assertion is a result `None`. */
module Parser {
  import opened Options
  import opened StackVariables
  import opened Language
  import opened Elaboration
  import opened CodeGen
  import opened Tokens

  class Parser {
    const tokens: seq<Token>
    var pos: nat
    var current: Token
    const variables: VariablesArray

    ghost predicate Valid()
      reads this, variables
    {
      pos <= |tokens| && variables.Valid() && forall v :: v in variables.variables ==> v.sizeOfType == 8
    }

    /** The current token and all that follow it. */
    ghost function Ahead(): seq<Token>
      reads this
      requires pos <= |tokens|
    {
      [current] + tokens[pos..]
    }

    ghost function Vars(): seq<string>
      reads this, variables
    {
      Names(variables.variables)
    }

    constructor (tokens: seq<Token>)
      ensures Valid() && fresh(variables) && Vars() == [] && Ahead() == [NO_TOKEN] + tokens
    {
      this.tokens := tokens;
      pos, current := 0, NO_TOKEN;
      variables := new VariablesArray();
    }

    /** `cubs_token_iter_next` */
    method Next()
      requires Valid()
      modifies this`pos, this`current
      ensures Valid()
      ensures |old(Ahead())| > 1 ==> Ahead() == old(Ahead())[1..]
    {
      if pos < |tokens| {
        current := tokens[pos];
        pos := pos + 1;
      } else {
        current := NO_TOKEN;
      }
    }

    method PushNamedTemporary(name: string)
      requires Valid()
      modifies variables
      ensures Valid() && Vars() == AddTemporary(old(Vars()), name)
    {
      NamesAppend(variables.variables, Info(FreshName(Vars(), name), true, 8));
      variables.PushTemporary(Info(name, true, 8));
    }

    /** `parse_expression_value` on one operand; `rest` is what follows it. */
    method ParseExpressionValue(ghost o: Operand, ghost rest: seq<Token>) returns (r: Option<Atom>)
      requires Valid() && Ahead() == [OperandToken(o)] + rest && rest != []
      modifies this`pos, this`current, variables
      ensures Valid()
      ensures match ElabOperand(old(Vars()), o)
              case None => r.None?
              case Some(b) => r == Some(b.node) && Vars() == b.vars && Ahead() == rest
    {
      assert current == Ahead()[0] && Ahead()[1..] == rest;
      match current.tag {
        case IntLiteral =>
          r := Some(IntLit(current.value.int64, |variables.variables|));
          PushNamedTemporary(TMP_INT_LIT);
        case Identifier =>
          var index := variables.FindIndex(current.value.text);
          if index.None? {
            return None;
          }
          r := Some(Variable(index.value));
        case _ =>
          return None;
      }
      Next();
    }

    /** The variable for a sum: the declared one, or a new temporary. */
    method Output(destination: Option<nat>) returns (out: nat)
      requires Valid()
      modifies variables
      ensures Valid() && ElabOutput(old(Vars()), destination) == Built(Vars(), out)
    {
      if destination.Some? {
        out := destination.value;
      } else {
        out := |variables.variables|;
        PushNamedTemporary(TMP_BIN_EXPR_OUT);
      }
    }

    /** `cubs_parse_expression` on an expression and the semicolon behind it. */
    method ParseExpression(destination: Option<nat>, ghost e: Expr, ghost rest: seq<Token>)
      returns (r: Option<ExprNode>)
      requires Valid() && Ahead() == ExprTokens(e) + ([Plain(SemicolonSymbol)] + rest)
      modifies this`pos, this`current, variables
      ensures Valid()
      ensures match ElabExpr(old(Vars()), e, destination)
              case None => r.None?
              case Some(b) => r == Some(b.node) && Vars() == b.vars && Ahead() == [Plain(SemicolonSymbol)] + rest
    {
      hide ElabOperand, ElabOutput;
      ghost var end := [Plain(SemicolonSymbol)] + rest;
      ghost var o := if e.One? then e.operand else e.left;
      ghost var tail := if e.One? then end else [Plain(AddOperator)] + ([OperandToken(e.right)] + end);
      assert Ahead() == [OperandToken(o)] + tail;
      var first := ParseExpressionValue(o, tail);
      if first.None? {
        return None;
      }
      assert current == Ahead()[0];
      if current.tag == SemicolonSymbol {
        return Some(Single(first.value));
      }
      if !IsOperator(current.tag) || current.tag != AddOperator {
        return None;
      }
      var out := Output(destination);
      assert Ahead()[1..] == [OperandToken(e.right)] + end;
      Next();
      var second := ParseExpressionValue(e.right, end);
      if second.None? {
        return None;
      }
      r := Some(BinaryExpr(out, first.value, second.value));
    }

    /** A step to the next token, which is returned; `rest` is what follows it. */
    method Step(ghost t: Token, ghost rest: seq<Token>) returns (tag: TokenType)
      requires Valid() && |Ahead()| > 1 && Ahead()[1..] == [t] + rest
      modifies this`pos, this`current
      ensures Valid() && Ahead() == [t] + rest && current == t && tag == t.tag
    {
      assert Ahead()[1..][0] == t;
      Next();
      assert current == Ahead()[0];
      tag := current.tag;
    }

    /** A declared variable; false if its name is taken. */
    method PushDeclared(name: string) returns (added: bool)
      requires Valid()
      modifies variables
      ensures Valid() && added == (name !in old(Vars()))
      ensures added ==> Vars() == old(Vars()) + [name]
    {
      NamesAppend(variables.variables, Info(name, false, 8));
      added := variables.Push(Info(name, false, 8));
    }

    /** From `const` or `mut` to the type name. */
    method ParseNameAndType(ghost x: string, ghost rest: seq<Token>) returns (name: string)
      requires Valid() && |Ahead()| > 1 && rest != []
      requires Ahead()[1..] == [NameToken(x)] + ([Plain(ColonSymbol)] + ([Plain(IntKeyword)] + rest))
      modifies this`pos, this`current
      ensures Valid() && name == x && Ahead() == [Plain(IntKeyword)] + rest
    {
      var tag := Step(NameToken(x), [Plain(ColonSymbol)] + ([Plain(IntKeyword)] + rest));
      name := current.value.text;
      tag := Step(Plain(ColonSymbol), [Plain(IntKeyword)] + rest);
      tag := Step(Plain(IntKeyword), rest);
    }

    /** `cubs_variable_declaration_node_init` */
    method ParseDeclaration(ghost x: string, ghost init: Option<Expr>, ghost mutable: bool, ghost rest: seq<Token>)
      returns (r: Option<Node>)
      requires Valid() && Ahead() == StatementTokens(Declare(x, init), mutable) + rest
      modifies this`pos, this`current, variables
      ensures Valid()
      ensures match ElabStatement(old(Vars()), Declare(x, init))
              case None => r.None?
              case Some(b) => r == Some(b.node) && Vars() == b.vars && Ahead() == [Plain(SemicolonSymbol)] + rest
    {
      hide ElabExpr, ExprTokens, StatementTokens, FreshName;
      ghost var value := ValueTokens(init, rest);
      DeclareTokens(x, init, mutable, rest);
      var name := ParseNameAndType(x, value);
      var index := |variables.variables|;
      var doesntExist := PushDeclared(name);
      if !doesntExist {
        return None;
      }
      var tag := Step(value[0], value[1..]);
      if tag == SemicolonSymbol {
        return Some(DeclarationNode(index, Single(IntLit(0, 0))));
      }
      r := ParseInitialValue(index, init.value, rest);
    }

    method ParseInitialValue(index: nat, ghost e: Expr, ghost rest: seq<Token>) returns (r: Option<Node>)
      requires Valid() && |Ahead()| > 1 && Ahead()[1..] == ExprTokens(e) + ([Plain(SemicolonSymbol)] + rest)
      modifies this`pos, this`current, variables
      ensures Valid()
      ensures match ElabExpr(old(Vars()), e, Some(index))
              case None => r.None?
              case Some(b) =>
                && r == Some(DeclarationNode(index, b.node)) && Vars() == b.vars
                && Ahead() == [Plain(SemicolonSymbol)] + rest
    {
      hide ElabExpr, ExprTokens;
      Next();
      var value := ParseExpression(Some(index), e, rest);
      r := if value.None? then None else Some(DeclarationNode(index, value.value));
    }

    /** `cubs_return_node_init` */
    method ParseReturn(ghost e: Option<Expr>, ghost rest: seq<Token>) returns (r: Option<Node>)
      requires Valid() && Ahead() == StatementTokens(Return(e), false) + rest
      modifies this`pos, this`current, variables
      ensures Valid()
      ensures match ElabStatement(old(Vars()), Return(e))
              case None => r.None?
              case Some(b) => r == Some(b.node) && Vars() == b.vars && Ahead() == [Plain(SemicolonSymbol)] + rest
    {
      hide ElabExpr, StatementTokens, FreshName;
      ghost var value := ReturnedTokens(e, rest);
      ReturnTokens(e, rest);
      var tag := Step(value[0], value[1..]);
      if tag == SemicolonSymbol {
        return Some(ReturnNode(None));
      }
      if tag != Identifier && tag != IntLiteral {
        return None;
      }
      var retValue := ParseExpression(None, e.value, rest);
      if retValue.None? {
        return None;
      }
      assert current == Ahead()[0];
      if current.tag != SemicolonSymbol {
        return None;
      }
      r := Some(ReturnNode(retValue));
    }

    method ParseStatement(ghost s: Statement, ghost mutable: bool, ghost rest: seq<Token>) returns (r: Option<Node>)
      requires Valid() && Ahead() == StatementTokens(s, mutable) + rest
      modifies this`pos, this`current, variables
      ensures Valid()
      ensures match ElabStatement(old(Vars()), s)
              case None => r.None?
              case Some(b) => r == Some(b.node) && Vars() == b.vars && Ahead() == [Plain(SemicolonSymbol)] + rest
      ensures current.tag == SemicolonSymbol || r.None?
    {
      hide ElabStatement;
      assert current == Ahead()[0] && current == StatementTokens(s, mutable)[0];
      if current.tag == ReturnKeyword {
        r := ParseReturn(s.result, rest);
      } else {
        r := ParseDeclaration(s.name, s.init, mutable, rest);
      }
      assert current == Ahead()[0];
    }

    /** The statement loop of `cubs_function_node_init`, from the opening to the closing brace. */
    method ParseStatements(ghost body: seq<Statement>, ghost mutable: seq<bool>) returns (r: Option<seq<Node>>)
      requires Valid() && |mutable| == |body|
      requires |Ahead()| > 1 && Ahead()[1..] == BodyTokens(body, mutable) + [Plain(RightBraceSymbol)]
      modifies this`pos, this`current, variables
      ensures Valid()
      ensures match ElabBody(old(Vars()), Complete(body))
              case None => r.None?
              case Some(b) => r == Some(b.node) && Vars() == b.vars
    {
      hide Progress, StatementTokens, ElabStatement, ElabBody, Complete;
      ghost var before, k := Vars(), 0;
      var endsWithReturn := false;
      var items: seq<Node> := [];
      ProgressStart(before, body, mutable);
      Next();
      while current.tag != RightBraceSymbol
        invariant Valid() && Progress(before, body, mutable, k, items, Vars(), Ahead())
        invariant k <= |body| && endsWithReturn == (k > 0 && body[k - 1].Return?)
        decreases |body| - k
      {
        ProgressMore(before, body, mutable, k, items, Vars(), Ahead());
        endsWithReturn := current.tag == ReturnKeyword;
        var node := ParseStatement(body[k], mutable[k], BodyRest(body, mutable, k + 1));
        if node.None? {
          return None;
        }
        items := items + [node.value];
        Next();
        k := k + 1;
      }
      ProgressEnd(before, body, mutable, k, items, Vars(), Ahead());
      if !endsWithReturn {
        items := items + [ReturnNode(None)];
      }
      r := Some(items);
    }

    /** One parameter with its type; a repeated name is dropped. */
    method ParseParameter(ghost name: string, ghost rest: seq<Token>)
      requires Valid() && rest != []
      requires Ahead() == [NameToken(name)] + ([Plain(ColonSymbol)] + ([Plain(IntKeyword)] + rest))
      modifies this`pos, this`current, variables
      ensures Valid() && Ahead() == rest && current.tag == rest[0].tag
      ensures Vars() == if name in old(Vars()) then old(Vars()) else old(Vars()) + [name]
    {
      assert current == Ahead()[0];
      assert Ahead()[1..] == [Plain(ColonSymbol)] + ([Plain(IntKeyword)] + rest);
      var variableName := current.value.text;
      var tag := Step(Plain(ColonSymbol), [Plain(IntKeyword)] + rest);
      tag := Step(Plain(IntKeyword), rest);
      NamesAppend(variables.variables, Info(variableName, false, 8));
      var added := variables.Push(Info(variableName, false, 8));
      assert Ahead()[1..] == rest;
      Next();
      assert current == Ahead()[0];
    }

    /** `parse_function_args` */
    method ParseParams(ghost params: seq<string>, ghost rest: seq<Token>)
      requires Valid() && |Ahead()| > 1
        && Ahead()[1..] == ParamsTokens(params) + ([Plain(RightParenthesesSymbol)] + rest)
      modifies this`pos, this`current, variables
      ensures Valid() && Vars() == ElabParams(old(Vars()), params) && Ahead() == [Plain(RightParenthesesSymbol)] + rest
    {
      hide ParamsTokens, ElabParams;
      ghost var k := 0;
      ghost var end := [Plain(RightParenthesesSymbol)] + rest;
      assert params[0..] == params;
      Next();
      ParamsStep(Vars(), params, k, end);
      while current.tag != RightParenthesesSymbol
        invariant Valid() && k <= |params| && Ahead() == ParamsTokens(params[k..]) + end
        invariant ElabParams(old(Vars()), params) == ElabParams(Vars(), params[k..])
        invariant current.tag == RightParenthesesSymbol <==> k == |params|
        decreases |params| - k
      {
        ParamsStep(Vars(), params, k, end);
        ghost var more := if k + 1 < |params| then [Plain(CommaSymbol)] + (ParamsTokens(params[k + 1..]) + end)
          else end;
        ParseParameter(params[k], more);
        k := k + 1;
        ParamsStep(Vars(), params, k, end);
        if current.tag == CommaSymbol {
          assert Ahead()[1..] == ParamsTokens(params[k..]) + end;
          Next();
        }
        assert current == Ahead()[0];
      }
      ParamsStep(Vars(), params, k, end);
    }

    /** `parse_function_return`, up to the opening brace. */
    method ParseResultType(ghost returnsInt: bool, ghost rest: seq<Token>)
      requires Valid() && |Ahead()| > 1 && rest != []
      requires Ahead()[1..] == (if returnsInt then [Plain(IntKeyword)] else []) + ([Plain(LeftBraceSymbol)] + rest)
      modifies this`pos, this`current
      ensures Valid() && Ahead() == [Plain(LeftBraceSymbol)] + rest
    {
      ghost var open := [Plain(LeftBraceSymbol)] + rest;
      if returnsInt {
        assert Ahead()[1..] == [Plain(IntKeyword)] + open;
      } else {
        assert Ahead()[1..] == [Plain(LeftBraceSymbol)] + rest;
      }
      var tag := Step(if returnsInt then Plain(IntKeyword) else Plain(LeftBraceSymbol), if returnsInt then open
        else rest);
      if tag != LeftBraceSymbol {
        assert Ahead()[1..] == open;
        tag := Step(Plain(LeftBraceSymbol), rest);
      }
    }

    /** `cubs_function_node_init`, from `fn` to the closing brace: on the tokens of any function it builds the
        nodes and variables of that function. */
    method ParseFunction(ghost f: Function, ghost name: string, ghost returnsInt: bool, ghost mutable: seq<bool>)
      returns (r: Option<seq<Node>>, argCount: nat)
      requires |mutable| == |f.body| && Valid() && Vars() == []
        && Ahead() == FunctionTokens(f, name, returnsInt, mutable)
      modifies this`pos, this`current, variables
      ensures Valid()
      ensures match ElabFunction(f)
              case None => r.None?
              case Some(b) => r == Some(b.node) && Vars() == b.vars && argCount == |ElabParams([], f.params)|
    {
      hide ParamsTokens, BodyTokens, ElabParams, ElabBody, Complete;
      ghost var result := ResultAndBodyTokens(returnsInt, f.body, mutable);
      ghost var params := ParamsTokens(f.params) + ([Plain(RightParenthesesSymbol)] + result);
      assert Ahead()[1..] == [NameToken(name)] + ([Plain(LeftParenthesesSymbol)] + params);
      var tag := Step(NameToken(name), [Plain(LeftParenthesesSymbol)] + params);
      tag := Step(Plain(LeftParenthesesSymbol), params);
      assert Ahead()[1..] == params;
      ParseParams(f.params, result);
      argCount := |variables.variables|;
      assert Ahead()[1..] == result;
      ParseResultType(returnsInt, BodyTokens(f.body, mutable) + [Plain(RightBraceSymbol)]);
      assert Ahead()[1..] == BodyTokens(f.body, mutable) + [Plain(RightBraceSymbol)];
      r := ParseStatements(f.body, mutable);
    }
  }

  /** One parameter taken off the list, or the list is at its end. */
  lemma {:induction false} ParamsStep(vars: seq<string>, params: seq<string>, k: nat, end: seq<Token>)
    requires k <= |params| && end != [] && end[0] == Plain(RightParenthesesSymbol)
    ensures k == |params| ==> ParamsTokens(params[k..]) + end == end && ElabParams(vars, params[k..]) == vars
    ensures k < |params| ==>
      && (ParamsTokens(params[k..]) + end)[0] == NameToken(params[k])
      && ParamsTokens(params[k..]) + end ==
         [NameToken(params[k])] + ([Plain(ColonSymbol)] + ([Plain(IntKeyword)]
         + (if k + 1 < |params| then [Plain(CommaSymbol)] + (ParamsTokens(params[k + 1..]) + end) else end)))
      && ElabParams(vars, params[k..])
        == ElabParams(if params[k] in vars then vars else vars + [params[k]], params[k + 1..])
  {
    if k < |params| {
      assert params[k..][1..] == params[k + 1..];
    }
  }

  /** What follows the type name of a declaration. */
  function ValueTokens(init: Option<Expr>, rest: seq<Token>): (ts: seq<Token>)
    ensures ts != []
  {
    var end := [Plain(SemicolonSymbol)] + rest;
    if init.Some? then [Plain(AssignOperator)] + (ExprTokens(init.value) + end) else end
  }

  lemma {:induction false} DeclareTokens(x: string, init: Option<Expr>, mutable: bool, rest: seq<Token>)
    ensures (StatementTokens(Declare(x, init), mutable) + rest)[1..] ==
            [NameToken(x)] + ([Plain(ColonSymbol)] + ([Plain(IntKeyword)] + ValueTokens(init, rest)))
  {
    hide ExprTokens;
  }

  /** What follows the keyword of a return. */
  function ReturnedTokens(e: Option<Expr>, rest: seq<Token>): (ts: seq<Token>)
    ensures ts != []
  {
    var end := [Plain(SemicolonSymbol)] + rest;
    if e.Some? then ExprTokens(e.value) + end else end
  }

  lemma {:induction false} ReturnTokens(e: Option<Expr>, rest: seq<Token>)
    ensures var ts := ReturnedTokens(e, rest);
            (StatementTokens(Return(e), false) + rest)[1..] == ts && ts == [ts[0]] + ts[1..]
  {
  }

  /** Nodes already built, in front of what is still to come. */
  function Prepend(nodes: seq<Node>, r: Option<Built<seq<Node>>>): Option<Built<seq<Node>>> {
    match r
    case None => None
    case Some(b) => Some(Built(b.vars, nodes + b.node))
  }

  lemma {:induction false} StatementStarts(s: Statement, mutable: bool)
    ensures StatementTokens(s, mutable)[0].tag
      == (if s.Return? then ReturnKeyword else if mutable then MutKeyword else ConstKeyword)
  {
  }

  /** The tokens from statement `k` on. */
  function BodyRest(body: seq<Statement>, mutable: seq<bool>, k: nat): (ts: seq<Token>)
    requires k <= |body| == |mutable|
    ensures ts != []
  {
    BodyTokens(body[k..], mutable[k..]) + [Plain(RightBraceSymbol)]
  }

  /** After `k` statements: the nodes so far, the variables so far and the tokens that are left. */
  ghost predicate Progress(before: seq<string>, body: seq<Statement>, mutable: seq<bool>, k: nat, items: seq<Node>,
                           vars: seq<string>, ahead: seq<Token>) {
    && k <= |body| == |mutable| && ahead == BodyRest(body, mutable, k)
    && k <= |Complete(body)| && ElabBody(before, Complete(body)) == Prepend(items, ElabBody(vars, Complete(body)[k..]))
  }

  lemma PrependStep(items: seq<Node>, node: Node, rest: Option<Built<seq<Node>>>)
    ensures Prepend(items + [node], rest) == Prepend(items, Prepend([node], rest))
  {
    if rest.Some? {
      assert items + [node] + rest.value.node == items + ([node] + rest.value.node);
    }
  }

  lemma {:induction false} ProgressStart(before: seq<string>, body: seq<Statement>, mutable: seq<bool>)
    requires |body| == |mutable|
    ensures Progress(before, body, mutable, 0, [], before, BodyTokens(body, mutable) + [Plain(RightBraceSymbol)])
  {
    hide ElabBody, BodyTokens, Complete;
    assert body[0..] == body && mutable[0..] == mutable && Complete(body)[0..] == Complete(body);
    assert ElabBody(before, Complete(body)).Some? ==>
      [] + ElabBody(before, Complete(body)).value.node == ElabBody(before, Complete(body)).value.node;
  }

  /** At a token that is no closing brace another statement starts. */
  lemma {:induction false} ProgressMore(before: seq<string>, body: seq<Statement>, mutable: seq<bool>, k: nat,
                                        items: seq<Node>, vars: seq<string>, ahead: seq<Token>)
    requires Progress(before, body, mutable, k, items, vars, ahead) && ahead[0].tag != RightBraceSymbol
    ensures k < |body| == |mutable| && ahead == StatementTokens(body[k], mutable[k]) + BodyRest(body, mutable, k + 1)
    ensures ahead[0].tag == ReturnKeyword <==> body[k].Return?
    ensures match ElabStatement(vars, body[k])
            case None => ElabBody(before, Complete(body)).None?
            case Some(b) => Progress(before, body, mutable, k + 1, items + [b.node], b.vars,
              BodyRest(body, mutable, k + 1))
  {
    hide StatementTokens, ElabStatement;
    if k < |body| {
      var rest := Complete(body)[k..];
      assert body[k..][1..] == body[k + 1..] && mutable[k..][1..] == mutable[k + 1..];
      assert rest[1..] == Complete(body)[k + 1..] && rest[0] == body[k];
      StatementStarts(body[k], mutable[k]);
      if ElabStatement(vars, body[k]).Some? {
        var b := ElabStatement(vars, body[k]).value;
        PrependStep(items, b.node, ElabBody(b.vars, rest[1..]));
      }
    }
  }

  /** At the closing brace only the return that completes the body is left. */
  lemma {:induction false} ProgressEnd(before: seq<string>, body: seq<Statement>, mutable: seq<bool>, k: nat,
                                       items: seq<Node>, vars: seq<string>, ahead: seq<Token>)
    requires Progress(before, body, mutable, k, items, vars, ahead) && ahead[0].tag == RightBraceSymbol
    ensures k == |body|
    ensures ElabBody(before, Complete(body)) ==
            Some(Built(vars, if k > 0 && body[k - 1].Return? then items else items + [ReturnNode(None)]))
  {
    hide StatementTokens;
    if k < |body| {
      StatementStarts(body[k], mutable[k]);
    } else {
      LastReturn(vars);
      var rest := Complete(body)[k..];
      assert rest == if k > 0 && body[k - 1].Return? then [] else [Return(None)];
      assert items + [] == items;
    }
  }

  lemma LastReturn(vars: seq<string>)
    ensures ElabBody(vars, [Return(None)]) == Some(Built(vars, [ReturnNode(None)]))
    ensures ElabBody(vars, []) == Some(Built(vars, []))
  {
    var s := [Return(None)];
    assert ElabStatement(vars, s[0]) == Some(Built(vars, ReturnNode(None)));
    assert s[1..] == [] && [ReturnNode(None)] + [] == [ReturnNode(None)];
  }

  /** From tokens to bytecode: parsing and code generation together are the compiler function. */
  method CompileTokens(tokens: seq<Token>, ghost f: Function, ghost name: string, ghost returnsInt: bool,
                       ghost mutable: seq<bool>)
    returns (r: Option<Compiled>)
    requires |mutable| == |f.body| && tokens == FunctionTokens(f, name, returnsInt, mutable)
    ensures r == Compile(f)
  {
    hide FunctionTokens, ElabFunction, EmitAll, NodesOk, IntPositions, ElabParams;
    var parser := new Parser(tokens);
    assert parser.Ahead()[1..] == tokens;
    parser.Next();
    var nodes, argCount := parser.ParseFunction(f, name, returnsInt, mutable);
    if nodes.None? {
      return None;
    }
    var vars := Names(parser.variables.variables);
    if |vars| > UINT16_MAX || !NodesOk(nodes.value, IntPositions(|vars|)) {
      return None;
    }
    var code, frameLength := CompileNodes(vars, nodes.value);
    r := Some(Compiled(code, frameLength, argCount));
  }
}
