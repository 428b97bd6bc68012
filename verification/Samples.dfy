/** The written forms and the meaning of the language, form by form, and one function worked out through the
    tokens it is written with, the code it is compiled to and the values it returns. */
module Samples {
  import opened IntMath
  import opened Options
  import opened StackVariables
  import opened Language
  import opened Tokens
  import opened Elaboration
  import opened CodeGen
  import opened BytecodeBits

  // ---- Written forms ----

  lemma {:induction false} ExprForms(l: Operand, r: Operand, v: Int64, x: string)
    ensures OperandToken(Lit(v)) == Token(IntLiteral, IntValue(v))
    ensures OperandToken(Name(x)) == Token(Identifier, Text(x))
    ensures ExprTokens(One(l)) == [OperandToken(l)]
    ensures ExprTokens(Sum(l, r)) == [OperandToken(l), Plain(AddOperator), OperandToken(r)]
  {
  }

  lemma {:induction false} StatementForms(x: string, e: Expr, mutable: bool)
    ensures var declared :=
              [Plain(if mutable then MutKeyword else ConstKeyword), Token(Identifier, Text(x)), Plain(ColonSymbol),
               Plain(IntKeyword)];
      && StatementTokens(Declare(x, None), mutable) == declared + [Plain(SemicolonSymbol)]
      && StatementTokens(Declare(x, Some(e)), mutable)
         == declared + [Plain(AssignOperator)] + ExprTokens(e) + [Plain(SemicolonSymbol)]
    ensures StatementTokens(Statement.Return(None), mutable) == [Plain(ReturnKeyword), Plain(SemicolonSymbol)]
    ensures StatementTokens(Statement.Return(Some(e)), mutable)
         == [Plain(ReturnKeyword)] + ExprTokens(e) + [Plain(SemicolonSymbol)]
  {
  }

  // ---- Meaning ----

  /** The arguments are the parameters' values. */
  lemma {:induction false} BindGives(params: seq<string>, args: seq<Int64>, i: nat)
    requires Distinct(params) && |params| == |args| && i < |params|
    ensures params[i] in Bind(params, args) && Bind(params, args)[params[i]] == args[i]
    decreases |params|
  {
    var n := |params| - 1;
    var before := Bind(params[..n], args[..n]);
    assert Bind(params, args) == before[params[n] := args[n]];
    hide Bind;
    if i < n {
      BindGives(params[..n], args[..n], i);
      assert params[i] != params[n];
    }
  }

  /** The number an expression stands for, however large. */
  function Number(env: Env, e: Expr): int
    requires ExprScoped(env.Keys, e)
  {
    match e
    case One(o) => OperandNumber(env, o)
    case Sum(l, r) => OperandNumber(env, l) + OperandNumber(env, r)
  }

  function OperandNumber(env: Env, o: Operand): int
    requires o.Name? ==> o.name in env
  {
    match o
    case Lit(v) => v
    case Name(x) => env[x]
  }

  /** A declaration binds its variable to 0 or to its number, and what follows is performed with that; a number
      that is no int64 ends the call with the overflow. */
  lemma {:induction false} DeclareMeans(env: Env, x: string, init: Option<Expr>, rest: seq<Statement>)
    requires Scoped(env.Keys, [Declare(x, init)] + rest)
    ensures (init.Some? ==> ExprScoped(env.Keys, init.value))
    ensures var number := if init.Some? then Number(env, init.value) else 0;
      if -0x8000_0000_0000_0000 <= number <= 0x7fff_ffff_ffff_ffff then
        Scoped(env[x := number].Keys, rest)
        && Perform(env, [Declare(x, init)] + rest) == Perform(env[x := number], rest)
      else Perform(env, [Declare(x, init)] + rest) == AdditionOverflow
  {
    assert ([Declare(x, init)] + rest)[1..] == rest;
    var v := InitialValue(env, init);
    if v.Some? {
      assert env[x := v.value].Keys == env.Keys + {x};
    }
    hide Scoped;
    assert Perform(env, [Declare(x, init)] + rest)
        == if v.Some? then Perform(env[x := v.value], rest) else AdditionOverflow;
    hide Perform;
  }

  /** A return ends the call with its number, with nothing, or with the overflow, whatever follows; so does the end
      of the body with nothing. */
  lemma {:induction false} ReturnMeans(env: Env, e: Expr, rest: seq<Statement>)
    requires Scoped(env.Keys, [Statement.Return(Some(e))] + rest)
    ensures Perform(env, [Statement.Return(Some(e))] + rest)
         == if -0x8000_0000_0000_0000 <= Number(env, e) <= 0x7fff_ffff_ffff_ffff then Returned(Number(env, e))
            else AdditionOverflow
    ensures Scoped(env.Keys, [Statement.Return(None)] + rest)
    ensures Perform(env, [Statement.Return(None)] + rest) == ReturnedNothing
    ensures Scoped(env.Keys, []) && Perform(env, []) == ReturnedNothing
  {
    assert ([Statement.Return(Some(e))] + rest)[1..] == rest && ([Statement.Return(None)] + rest)[1..] == rest;
    assert env.Keys + {} == env.Keys;
  }

  // ---- One function ----

  const A: string := "a"
  const B: string := "b"
  const C: string := "c"

  /** `fn sum(a: int, b: int) int { const c: int = a + b; return c + 1; }` */
  const FIRST: Statement := Declare(C, Some(Sum(Name(A), Name(B))))
  const SECOND: Statement := Statement.Return(Some(Sum(Name(C), Lit(1))))
  const SUM: Function := Function([A, B], [FIRST, SECOND])

  lemma {:induction false} SumTokens()
    ensures FunctionTokens(SUM, "sum", true, [false, false])
         == [Plain(FnKeyword), Token(Identifier, Text("sum")), Plain(LeftParenthesesSymbol),
             Token(Identifier, Text("a")), Plain(ColonSymbol), Plain(IntKeyword), Plain(CommaSymbol),
             Token(Identifier, Text("b")), Plain(ColonSymbol), Plain(IntKeyword),
             Plain(RightParenthesesSymbol), Plain(IntKeyword), Plain(LeftBraceSymbol),
             Plain(ConstKeyword), Token(Identifier, Text("c")), Plain(ColonSymbol), Plain(IntKeyword),
             Plain(AssignOperator), Token(Identifier, Text("a")), Plain(AddOperator), Token(Identifier, Text("b")),
             Plain(SemicolonSymbol),
             Plain(ReturnKeyword), Token(Identifier, Text("c")), Plain(AddOperator),
             Token(IntLiteral, IntValue(1)), Plain(SemicolonSymbol), Plain(RightBraceSymbol)]
  {
    hide ParamsTokens, BodyTokens;
    SumParams();
    SumBody();
  }

  lemma {:induction false} SumParams()
    ensures ParamsTokens(SUM.params)
         == [Token(Identifier, Text("a")), Plain(ColonSymbol), Plain(IntKeyword), Plain(CommaSymbol),
             Token(Identifier, Text("b")), Plain(ColonSymbol), Plain(IntKeyword)]
  {
    assert SUM.params[1..] == [B];
    assert ParamsTokens([B]) == [NameToken(B), Plain(ColonSymbol), Plain(IntKeyword)];
  }

  lemma {:induction false} SumBody()
    ensures BodyTokens(SUM.body, [false, false])
         == [Plain(ConstKeyword), Token(Identifier, Text("c")), Plain(ColonSymbol), Plain(IntKeyword),
             Plain(AssignOperator), Token(Identifier, Text("a")), Plain(AddOperator), Token(Identifier, Text("b")),
             Plain(SemicolonSymbol),
             Plain(ReturnKeyword), Token(Identifier, Text("c")), Plain(AddOperator),
             Token(IntLiteral, IntValue(1)), Plain(SemicolonSymbol)]
  {
    hide StatementTokens, ExprTokens;
    assert SUM.body[1..] == [SECOND] && [SECOND][1..] == [];
    assert [false, false][1..] == [false] && [false][1..] == [];
    assert BodyTokens([], []) == [];
    assert BodyTokens([SECOND], [false]) == StatementTokens(SECOND, false);
    ExprForms(Name(A), Name(B), 1, A);
    ExprForms(Name(C), Lit(1), 1, C);
    StatementForms(C, Sum(Name(A), Name(B)), false);
    StatementForms(C, Sum(Name(C), Lit(1)), false);
  }

  lemma {:induction false} SumMeaning(x: Int64, y: Int64)
    ensures FunctionScoped(SUM)
    ensures Meaning(SUM, [x, y]) == if -0x8000_0000_0000_0000 <= x + y <= 0x7fff_ffff_ffff_fffe then Returned(x + y + 1)
                                    else AdditionOverflow
  {
    SumScoped();
    var env := Bind(SUM.params, [x, y]);
    BindGives(SUM.params, [x, y], 0);
    BindGives(SUM.params, [x, y], 1);
    assert env.Keys == (set n | n in SUM.params);
    assert SUM.body == [FIRST] + [SECOND] && [SECOND] == [SECOND] + [];
    hide Perform, Bind;
    DeclareMeans(env, C, FIRST.init, [SECOND]);
    if Fits(x + y) {
      ReturnMeans(env[C := x + y], SECOND.result.value, []);
    }
  }

  lemma {:induction false} SumScoped()
    ensures Distinct(SUM.params) && FunctionScoped(SUM)
  {
    assert SUM.body[1..] == [SECOND] && [SECOND][1..] == [];
    assert A in SUM.params && B in SUM.params;
  }

  /** The first sum goes to the variable `c`; the second has a slot of its own, and so has its literal. */
  lemma {:induction false} SumNodes()
    ensures ElabFunction(SUM)
         == Some(Built([A, B, C, "_tmpBinExprOut", "_tmpIntLit"],
                       [DeclarationNode(2, BinaryExpr(2, Variable(0), Variable(1))),
                        ReturnNode(Some(BinaryExpr(3, Variable(2), IntLit(1, 4))))]))
  {
    SumParameters();
    assert [FIRST, SECOND][1..] == [SECOND] && [SECOND][1..] == [] && Complete(SUM.body) == [FIRST, SECOND];
    hide ElabParams, ElabStatement, Complete;
    FirstNode();
    SecondNode();
    var last := ReturnNode(Some(BinaryExpr(3, Variable(2), IntLit(1, 4))));
    var vars := [A, B, C, "_tmpBinExprOut", "_tmpIntLit"];
    assert ElabBody(vars, []) == Some(Built(vars, [])) && [last] + [] == [last];
    assert ElabBody([A, B, C], [SECOND]) == Some(Built(vars, [last]));
    var first := DeclarationNode(2, BinaryExpr(2, Variable(0), Variable(1)));
    assert [first] + [last] == [first, last];
    assert ElabBody([A, B], [FIRST, SECOND]) == Some(Built(vars, [first, last]));
  }

  lemma {:induction false} SumParameters()
    ensures ElabParams([], SUM.params) == [A, B]
  {
    assert [] + [A, B] == [A, B];
    ElabDistinctParams([], SUM.params);
  }

  lemma {:induction false} FirstNode()
    ensures ElabStatement([A, B], FIRST)
         == Some(Built([A, B, C], DeclarationNode(2, BinaryExpr(2, Variable(0), Variable(1)))))
  {
    assert [A, B] + [C] == [A, B, C];
    FindAt([A, B, C], 0);
    FindAt([A, B, C], 1);
    hide Find;
  }

  lemma {:induction false} FindAt(names: seq<string>, i: nat)
    requires Distinct(names) && i < |names|
    ensures Find(names, names[i]) == Some(i)
  {
    var r := Find(names, names[i]);
    assert names[i] in names;
    hide Find;
    assert r.Some? && r.value <= i;
  }

  lemma {:induction false} NewName(names: seq<string>, name: string)
    requires name !in names
    ensures AddTemporary(names, name) == names + [name]
  {
    FreshStep(names, name);
  }

  lemma {:induction false} SecondNode()
    ensures ElabStatement([A, B, C], SECOND)
         == Some(Built([A, B, C, "_tmpBinExprOut", "_tmpIntLit"],
                       ReturnNode(Some(BinaryExpr(3, Variable(2), IntLit(1, 4))))))
  {
    FindAt([A, B, C], 2);
    assert |A| == |B| == |C| == 1 && |"_tmpBinExprOut"| == 14 && |"_tmpIntLit"| == 10;
    hide Find, AddTemporary;
    NewName([A, B, C], "_tmpBinExprOut");
    NewName([A, B, C, "_tmpBinExprOut"], "_tmpIntLit");
    assert [A, B, C] + ["_tmpBinExprOut"] == [A, B, C, "_tmpBinExprOut"];
    assert [A, B, C, "_tmpBinExprOut"] + ["_tmpIntLit"] == [A, B, C, "_tmpBinExprOut", "_tmpIntLit"];
  }

  lemma {:induction false} SumEmits(p: seq<nat>)
    requires p == [0, 1, 2, 3, 4]
    ensures var n := DeclarationNode(2, BinaryExpr(2, Variable(0), Variable(1)));
      NodeOk(n, p) && Emit(n, p) == [22 + 0x80_0000 * 1 + 0x10_0000_0000 * 2]
    ensures var n := ReturnNode(Some(BinaryExpr(3, Variable(2), IntLit(1, 4))));
      NodeOk(n, p)
      && Emit(n, p) == [1 + 0x100 + 0x400 * 2 + 0x1_0000 * 4, 1,
                        22 + 0x400 * 2 + 0x80_0000 * 4 + 0x10_0000_0000 * 3, 2 + 0x100 + 0x200 * 3]
  {
    hide Operations.MakeLoadImmediateLong, Operations.MakeAddDst, Operations.MakeReturn;
    AddBits(false, 2, 0, 1);
    LoadBits(2, 4, 1);
    AddBits(false, 3, 2, 4);
    ReturnBits(true, 3);
  }

  /** An add, a load of two words, an add and a return; five slots, of which two are arguments. */
  lemma {:induction false} SumCode()
    ensures Compile(SUM)
         == Some(Compiled([22 + 0x80_0000 * 1 + 0x10_0000_0000 * 2,
                           1 + 0x100 + 0x400 * 2 + 0x1_0000 * 4, 1,
                           22 + 0x400 * 2 + 0x80_0000 * 4 + 0x10_0000_0000 * 3,
                           2 + 0x100 + 0x200 * 3], 5, 2))
  {
    hide ElabParams, ElabFunction, NodeOk, Emit;
    SumNodes();
    SumParameters();
    var p := IntPositions(5);
    assert p == [0, 1, 2, 3, 4];
    SumEmits(p);
    var first, second := DeclarationNode(2, BinaryExpr(2, Variable(0), Variable(1))),
        ReturnNode(Some(BinaryExpr(3, Variable(2), IntLit(1, 4))));
    assert [first, second][1..] == [second] && [second][1..] == [];
    assert EmitAll([], p) == [];
    assert EmitAll([second], p) == Emit(second, p) + EmitAll([second][1..], p) == Emit(second, p);
    assert EmitAll([first, second], p) == Emit(first, p) + Emit(second, p);
    var b := ElabFunction(SUM).value;
    assert |b.vars| == 5 && b.node == [first, second] && NodesOk(b.node, p);
    assert EmitAll(b.node, p)
        == [22 + 0x80_0000 * 1 + 0x10_0000_0000 * 2, 1 + 0x100 + 0x400 * 2 + 0x1_0000 * 4, 1,
            22 + 0x400 * 2 + 0x80_0000 * 4 + 0x10_0000_0000 * 3, 2 + 0x100 + 0x200 * 3];
    hide IntPositions, EmitAll, NodesOk;
    assert Compile(SUM) == Some(Compiled(EmitAll(b.node, p), 5, |ElabParams([], SUM.params)|));
  }
}
